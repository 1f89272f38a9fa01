/** Unsigned big-endian numbers of fixed width, as encoding/binary reads them. */
module BigEndian {
  import opened Bytes

  function Pow256(n: nat): nat {
    if n == 0 then 1 else 256 * Pow256(n - 1)
  }

  /** The number in p[at..at + n]. */
  function Number(p: Bytes, at: nat, n: nat): nat
    requires at + n <= |p|
  {
    if n == 0 then 0 else Number(p, at, n - 1) * 256 + p[at + n - 1] as nat
  }

  /** The last n bytes of v. */
  function BytesOf(v: nat, n: nat): (s: Bytes)
    ensures |s| == n
  {
    if n == 0 then [] else BytesOf(v / 256, n - 1) + [(v % 256) as byte]
  }

  lemma {:induction false} NumberOfBytes(p: Bytes, at: nat, v: nat, n: nat)
    requires Holds(p, at, BytesOf(v, n)) && v < Pow256(n)
    ensures Number(p, at, n) == v
  {
    if n > 0 {
      var s, front := BytesOf(v, n), BytesOf(v / 256, n - 1);
      forall i | 0 <= i < n - 1
        ensures p[at + i] == front[i]
      {
        assert p[at + i] == s[i];
      }
      assert p[at + (n - 1)] == s[n - 1];
      NumberOfBytes(p, at, v / 256, n - 1);
    }
  }

  lemma {:induction false} BytesOfNumber(p: Bytes, at: nat, n: nat)
    requires at + n <= |p|
    ensures Number(p, at, n) < Pow256(n) && Holds(p, at, BytesOf(Number(p, at, n), n))
  {
    if n > 0 {
      BytesOfNumber(p, at, n - 1);
      var v, b := Number(p, at, n - 1), p[at + n - 1];
      assert (v * 256 + b as nat) / 256 == v && (v * 256 + b as nat) % 256 == b as nat;
    }
  }

  lemma Widths()
    ensures Pow256(4) == 0x1_0000_0000 && Pow256(8) == 0x1_0000_0000_0000_0000
  {
    assert Pow256(2) == 0x1_0000;
    assert Pow256(6) == 0x1_0000_0000_0000;
  }
}
