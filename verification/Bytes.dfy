/** Byte strings, as Go's []byte and string hold them, and their decimal numbers. */
module Bytes {
  import opened Decimal
  import opened Options

  newtype byte = x: int | 0 <= x < 0x100

  type Bytes = seq<byte>

  const MAX_INT: int := 0x7FFF_FFFF_FFFF_FFFF

  const CR: byte := 13
  const LF: byte := 10
  const PLUS: byte := '+' as byte
  const MINUS: byte := '-' as byte
  const ZERO: byte := '0' as byte

  predicate IsDigit(b: byte) { ZERO <= b < ZERO + 10 }

  /** The decimal text of a natural number. */
  function DecimalBytes(n: nat): (s: Bytes)
    ensures |s| > 0 && forall b <- s :: IsDigit(b)
  {
    var ds := Digits(n);
    seq(|ds|, i requires 0 <= i < |ds| => ZERO + ds[i] as byte)
  }

  function SignedBytes(n: int): (s: Bytes)
    ensures |s| > 0 && forall b <- s :: IsDigit(b) || b == MINUS
  {
    if n < 0 then [MINUS] + DecimalBytes(-n) else DecimalBytes(n)
  }

  /** Only digits in s[i..hi]. */
  predicate DigitsIn(s: Bytes, i: nat, hi: nat)
    requires hi <= |s|
    decreases hi - i
  {
    i >= hi || (IsDigit(s[i]) && DigitsIn(s, i + 1, hi))
  }

  /** The loop n = n*10 + digit over s[i..hi]. */
  function NumberIn(s: Bytes, i: nat, hi: nat, n: int): int
    requires hi <= |s|
    decreases hi - i
  {
    if i >= hi then n else NumberIn(s, i + 1, hi, 10 * n + s[i] as int - '0' as int)
  }

  /** strconv.Atoi on s[lo..hi]: an optional sign, then at least one digit and nothing else, within 64 bits. */
  function Atoi(s: Bytes, lo: nat, hi: nat): Option<int>
    requires lo <= hi <= |s|
  {
    var start := if lo < hi && (s[lo] == PLUS || s[lo] == MINUS) then lo + 1 else lo;
    if start >= hi || !DigitsIn(s, start, hi) then None
    else
      var n := if s[lo] == MINUS then -NumberIn(s, start, hi, 0) else NumberIn(s, start, hi, 0);
      if -MAX_INT - 1 <= n <= MAX_INT then Some(n) else None
  }

  lemma Regroup<T>(a: seq<T>, b: seq<T>, c: seq<T>)
    ensures a + (b + c) == a + b + c
  {
  }

  /** The bytes of t stand in s from position at on. */
  ghost predicate Holds(s: Bytes, at: nat, t: Bytes) {
    at + |t| <= |s| && forall i :: 0 <= i < |t| ==> s[at + i] == t[i]
  }

  lemma HoldsParts(p: Bytes, at: nat, a: Bytes, b: Bytes, mid: nat)
    requires Holds(p, at, a + b) && mid == at + |a|
    ensures Holds(p, at, a) && Holds(p, mid, b) && mid + |b| <= |p|
  {
    forall i | 0 <= i < |a|
      ensures p[at + i] == a[i]
    {
      assert p[at + i] == (a + b)[i];
    }
    forall i | 0 <= i < |b|
      ensures p[mid + i] == b[i]
    {
      assert p[at + (|a| + i)] == (a + b)[|a| + i];
    }
  }

  lemma HoldsSlice(p: Bytes, at: nat, s: Bytes, end: nat)
    requires Holds(p, at, s) && end == at + |s|
    ensures p[at..end] == s
  {
  }

  lemma HoldsConcat(p: Bytes, at: nat, a: Bytes, b: Bytes, mid: nat)
    requires Holds(p, at, a) && mid == at + |a| && Holds(p, mid, b)
    ensures Holds(p, at, a + b)
  {
    forall i | 0 <= i < |a + b|
      ensures p[at + i] == (a + b)[i]
    {
      if i >= |a| {
        assert p[mid + (i - |a|)] == b[i - |a|];
      }
    }
  }

  lemma {:induction false} ReadDigits(s: Bytes, at: nat, ds: seq<nat>, k: nat)
    requires at + |ds| <= |s| && k <= |ds|
    requires forall i :: 0 <= i < |ds| ==> ds[i] < 10 && s[at + i] as int == '0' as int + ds[i]
    ensures DigitsIn(s, at + k, at + |ds|) && NumberIn(s, at + k, at + |ds|, Value(ds[..k])) == Value(ds)
    decreases |ds| - k
  {
    if k == |ds| {
      assert ds[..k] == ds;
    } else {
      ReadDigits(s, at, ds, k + 1);
      assert ds[..k + 1][..k] == ds[..k];
      assert s[at + k] as int == '0' as int + ds[k];
    }
  }

  lemma ReadDecimal(s: Bytes, lo: nat, n: nat)
    requires Holds(s, lo, DecimalBytes(n))
    ensures DigitsIn(s, lo, lo + |Digits(n)|) && NumberIn(s, lo, lo + |Digits(n)|, 0) == n
  {
    var t, ds := DecimalBytes(n), Digits(n);
    forall i | 0 <= i < |ds|
      ensures s[lo + i] as int == '0' as int + ds[i]
    {
      assert s[lo + i] == t[i];
    }
    assert ds[..0] == [];
    ReadDigits(s, lo, ds, 0);
    ValueOfDigits(n);
  }

  /** A printed number is read back wherever it stands, if it fits 64 bits, and refused if it does not. */
  lemma AtoiReadsDecimal(s: Bytes, lo: nat, n: int)
    requires Holds(s, lo, SignedBytes(n))
    ensures Atoi(s, lo, lo + |SignedBytes(n)|) == if -MAX_INT - 1 <= n <= MAX_INT then Some(n) else None
  {
    var t := SignedBytes(n);
    assert s[lo + 0] == t[0];
    if n < 0 {
      var d := DecimalBytes(-n);
      forall i | 0 <= i < |d|
        ensures s[lo + 1 + i] == d[i]
      {
        assert s[lo + (1 + i)] == t[1 + i];
      }
      ReadDecimal(s, lo + 1, -n);
    } else {
      assert IsDigit(t[0]) by { assert t[0] in DecimalBytes(n); }
      ReadDecimal(s, lo, n);
    }
  }
}
