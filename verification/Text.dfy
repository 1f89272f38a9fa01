/** Cutting sequences at delimiters. */
module Text {

  lemma CutIsFirst<T>(d: T, a: seq<T>, restA: seq<T>, b: seq<T>, restB: seq<T>)
    requires d !in a
    requires a + [d] + restA == b + [d] + restB
    ensures |a| <= |b|
  {
    var s := b + [d] + restB;
    assert s[|b|] == d;
    assert forall i :: 0 <= i < |a| ==> s[i] == a[i] != d;
  }

  /** If d occurs in neither prefix, the first d is where both texts are cut. */
  lemma CutAt<T>(d: T, a: seq<T>, restA: seq<T>, b: seq<T>, restB: seq<T>)
    requires d !in a && d !in b
    requires a + [d] + restA == b + [d] + restB
    ensures a == b && restA == restB
  {
    CutIsFirst(d, a, restA, b, restB);
    CutIsFirst(d, b, restB, a, restA);
    var s, t := a + [d] + restA, b + [d] + restB;
    assert a == s[..|a|] && b == t[..|b|];
    assert restA == s[|a| + 1..] && restB == t[|b| + 1..];
  }

  lemma EitherIsFirst<T>(d: T, e: T, a: seq<T>, restA: seq<T>, b: seq<T>, f: T, restB: seq<T>)
    requires d !in a && e !in a && (f == d || f == e)
    requires a + restA == b + [f] + restB
    ensures |a| <= |b|
  {
    var s := b + [f] + restB;
    assert s[|b|] == f;
    assert forall i :: 0 <= i < |a| ==> s[i] == a[i] && a[i] in a;
  }

  /** The same when either of two delimiters ends the prefix. */
  lemma CutAtEither<T>(d: T, e: T, a: seq<T>, c: T, restA: seq<T>, b: seq<T>, f: T, restB: seq<T>)
    requires d !in a && d !in b && e !in a && e !in b
    requires (c == d || c == e) && (f == d || f == e)
    requires a + [c] + restA == b + [f] + restB
    ensures a == b && c == f && restA == restB
  {
    var s, t := a + [c] + restA, b + [f] + restB;
    assert a + ([c] + restA) == s && b + ([f] + restB) == t;
    EitherIsFirst(d, e, a, [c] + restA, b, f, restB);
    EitherIsFirst(d, e, b, [f] + restB, a, c, restA);
    assert a == s[..|a|] && b == t[..|b|];
    assert c == s[|a|] && f == t[|b|];
    assert restA == s[|a| + 1..] && restB == t[|b| + 1..];
  }

  lemma CutPrefix<T>(a: seq<T>, restA: seq<T>, restB: seq<T>)
    requires a + restA == a + restB
    ensures restA == restB
  {
    assert (a + restA)[|a|..] == restA;
    assert (a + restB)[|a|..] == restB;
  }
}
