/** Permutations as sequences of indices, by how often each index comes. */
module Permutations {

  function Count(x: nat, s: seq<nat>): nat {
    if s == [] then 0 else Count(x, s[..|s| - 1]) + if s[|s| - 1] == x then 1 else 0
  }

  ghost predicate IsPermutation(s: seq<nat>, n: nat) {
    (forall x <- s :: x < n) && forall j :: 0 <= j < n ==> Count(j, s) == 1
  }

  lemma {:induction false} CountConcat(x: nat, s: seq<nat>, t: seq<nat>)
    ensures Count(x, s + t) == Count(x, s) + Count(x, t)
  {
    if t == [] {
      assert s + t == s;
    } else {
      var n := |t| - 1;
      assert s + t == (s + t[..n]) + [t[n]];
      assert (s + t)[..|s + t| - 1] == s + t[..n];
      CountConcat(x, s, t[..n]);
    }
  }

  lemma CountOne(x: nat, y: nat)
    ensures Count(x, [y]) == if x == y then 1 else 0
  {
    assert [y][..0] == [];
  }

  lemma {:induction false} CountMember(x: nat, s: seq<nat>)
    ensures Count(x, s) > 0 <==> x in s
  {
    if s != [] {
      var n := |s| - 1;
      assert s == s[..n] + [s[n]];
      CountMember(x, s[..n]);
    }
  }

  // ---------- sums do not depend on the order ----------

  function SumAt(f: nat -> real, s: seq<nat>): real {
    if s == [] then 0.0 else SumAt(f, s[..|s| - 1]) + f(s[|s| - 1])
  }

  function SumBelow(f: nat -> real, n: nat): real {
    if n == 0 then 0.0 else SumBelow(f, n - 1) + f(n - 1)
  }

  function Times(k: nat, v: real): real { k as real * v }

  lemma TimesLaws(k: nat, v: real)
    ensures Times(k + 1, v) == Times(k, v) + v && Times(0, v) == 0.0 && Times(1, v) == v
  {
    assert (k + 1) as real == k as real + 1.0;
  }

  /** The sum over all x < n of f(x), as often as x comes in s. */
  function Counted(f: nat -> real, s: seq<nat>, n: nat): real {
    if n == 0 then 0.0 else Counted(f, s, n - 1) + Times(Count(n - 1, s), f(n - 1))
  }

  lemma {:induction false} CountedEmpty(f: nat -> real, n: nat)
    ensures Counted(f, [], n) == 0.0
  {
    hide Times;
    if n > 0 {
      CountedEmpty(f, n - 1);
      TimesLaws(0, f(n - 1));
    }
  }

  lemma {:induction false} CountedSnoc(f: nat -> real, s: seq<nat>, y: nat, n: nat)
    ensures Counted(f, s + [y], n) == Counted(f, s, n) + if y < n then f(y) else 0.0
  {
    hide Times, Count;
    if n > 0 {
      CountedSnoc(f, s, y, n - 1);
      CountConcat(n - 1, s, [y]);
      CountOne(n - 1, y);
      TimesLaws(Count(n - 1, s), f(n - 1));
    }
  }

  lemma {:induction false} SumIsCounted(f: nat -> real, s: seq<nat>, n: nat)
    requires forall x <- s :: x < n
    ensures SumAt(f, s) == Counted(f, s, n)
  {
    hide Counted, Count;
    if s == [] {
      CountedEmpty(f, n);
    } else {
      var m := |s| - 1;
      var front := s[..m];
      forall x | x in front
        ensures x < n
      {
        assert x in s;
      }
      SumIsCounted(f, front, n);
      CountedSnoc(f, front, s[m], n);
      assert front + [s[m]] == s && s[m] in s;
    }
  }

  lemma {:induction false} CountedOnce(f: nat -> real, s: seq<nat>, n: nat)
    requires forall j :: 0 <= j < n ==> Count(j, s) == 1
    ensures Counted(f, s, n) == SumBelow(f, n)
  {
    hide Times, Count;
    if n > 0 {
      CountedOnce(f, s, n - 1);
      assert Count(n - 1, s) == 1;
      TimesLaws(0, f(n - 1));
    }
  }

  lemma SumPermuted(f: nat -> real, s: seq<nat>, n: nat)
    requires IsPermutation(s, n)
    ensures SumAt(f, s) == SumBelow(f, n)
  {
    SumIsCounted(f, s, n);
    CountedOnce(f, s, n);
  }

  // ---------- composition ----------

  function Identity(n: nat): seq<nat> { seq(n, i => i) }

  lemma {:induction false} IdentityCount(x: nat, n: nat)
    ensures Count(x, Identity(n)) == if x < n then 1 else 0
  {
    if n > 0 {
      assert Identity(n)[..n - 1] == Identity(n - 1);
      IdentityCount(x, n - 1);
    }
  }

  lemma IdentityPermutes(n: nat)
    ensures IsPermutation(Identity(n), n)
  {
    forall j | 0 <= j < n
      ensures Count(j, Identity(n)) == 1
    {
      IdentityCount(j, n);
    }
  }

  /** First p, then q: position i holds p[q[i]]. */
  function Compose(p: seq<nat>, q: seq<nat>): seq<nat>
    requires forall x <- q :: x < |p|
  {
    seq(|q|, i requires 0 <= i < |q| => assert q[i] in q; p[q[i]])
  }

  function Hits(x: nat, p: seq<nat>): nat -> real {
    (k: nat) => if k < |p| && p[k] == x then 1.0 else 0.0
  }

  lemma {:induction false} CountComposed(x: nat, p: seq<nat>, q: seq<nat>)
    requires forall k <- q :: k < |p|
    ensures Count(x, Compose(p, q)) as real == SumAt(Hits(x, p), q)
  {
    if q != [] {
      var n := |q| - 1;
      var front := q[..n];
      forall k | k in front
        ensures k < |p|
      {
        assert k in q;
      }
      assert q[n] in q;
      assert Compose(p, q)[..n] == Compose(p, front) && Compose(p, q)[n] == p[q[n]];
      CountComposed(x, p, front);
    }
  }

  lemma {:induction false} CountIsHits(x: nat, p: seq<nat>, n: nat)
    requires n <= |p|
    ensures Count(x, p[..n]) as real == SumBelow(Hits(x, p), n)
  {
    if n > 0 {
      CountIsHits(x, p, n - 1);
      assert p[..n][..n - 1] == p[..n - 1];
    }
  }

  lemma ComposePermutes(p: seq<nat>, q: seq<nat>, n: nat)
    requires IsPermutation(p, n) && IsPermutation(q, n) && |p| == n
    ensures IsPermutation(Compose(p, q), n)
  {
    var r := Compose(p, q);
    forall x | x in r
      ensures x < n
    {
      var i :| 0 <= i < |r| && r[i] == x;
      assert q[i] in q && p[q[i]] in p;
    }
    forall x | 0 <= x < n
      ensures Count(x, r) == 1
    {
      CountComposed(x, p, q);
      SumPermuted(Hits(x, p), q, n);
      CountIsHits(x, p, n);
      assert p[..n] == p;
    }
  }
}
