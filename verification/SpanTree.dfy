/** Spans with their children, as values, and sorting every list of children by start time. */
module SpanTree {
  import opened Options
  import opened Permutations

  datatype TagValue = BoolTag(flag: bool) | IntTag(number: int) | TextTag(text: string)

  /** No tags at all is nil, which cannot be written to. */
  type Tags = Option<map<string, TagValue>>

  /** The fields of a span that nothing here looks at. */
  datatype Details = Details(
    traceId: string, parentSpanId: string, eventType: string, endTime: int, errorCode: int, payloadSize: nat,
    payload: string, sourceIp: string, destIp: string, sourcePort: nat, destPort: nat, pid: nat, comm: string, path: string)

  datatype Info = Info(
    spanId: string, serviceName: string, operation: string, protocol: string, startTime: int, durationMs: real,
    details: Details)

  datatype Span = Span(info: Info, tags: Tags, children: seq<Span>)

  function Starts(spans: seq<Span>): seq<int> {
    seq(|spans|, i requires 0 <= i < |spans| => spans[i].info.startTime)
  }

  /** How a sort rearranges elements with the given start times: which goes where. */
  type Order = seq<int> -> seq<nat>

  predicate Indexes(p: seq<nat>, n: nat) {
    forall i :: 0 <= i < |p| ==> p[i] < n
  }

  /** The keys, taken in this order, do not go down. */
  predicate InOrder(keys: seq<int>, p: seq<nat>)
    requires Indexes(p, |keys|)
  {
    |p| <= 1 || (keys[p[|p| - 2]] <= keys[p[|p| - 1]] && InOrder(keys, p[..|p| - 1]))
  }

  lemma {:induction false} InOrderAt(keys: seq<int>, p: seq<nat>, i: nat, j: nat)
    requires Indexes(p, |keys|) && InOrder(keys, p) && i < j < |p|
    ensures keys[p[i]] <= keys[p[j]]
  {
    if j < |p| - 1 {
      InOrderAt(keys, p[..|p| - 1], i, j);
    } else if i < |p| - 2 {
      InOrderAt(keys, p[..|p| - 1], i, |p| - 2);
    }
  }

  /** The sort need not be stable, but it permutes, and start times end up in order. */
  ghost predicate Sorts(order: Order) {
    forall keys: seq<int> ::
      && IsPermutation(order(keys), |keys|) && |order(keys)| == |keys|
      && Indexes(order(keys), |keys|) && InOrder(keys, order(keys))
  }

  function OrderOf(order: Order, t: Span): (p: seq<nat>)
    requires Sorts(order)
    ensures |p| == |t.children| && IsPermutation(p, |t.children|)
    ensures Indexes(p, |t.children|) && InOrder(Starts(t.children), p)
  {
    order(Starts(t.children))
  }

  /** The tree after the lists of children have been sorted, from the top down. */
  function SortTree(order: Order, t: Span): Span
    requires Sorts(order)
    decreases t
  {
    var p := OrderOf(order, t);
    t.(children := seq(|p|, i requires 0 <= i < |p| => SortTree(order, t.children[p[i]])))
  }

  /** The sorted tree has the sorted children, in their new order p, and is otherwise the same. */
  lemma SortTreeIs(order: Order, t: Span) returns (p: seq<nat>)
    requires Sorts(order)
    ensures p == OrderOf(order, t)
    ensures IsPermutation(p, |t.children|) && |p| == |t.children|
    ensures Indexes(p, |t.children|) && InOrder(Starts(t.children), p)
    ensures var s := SortTree(order, t);
            && s == t.(children := s.children) && |s.children| == |p|
            && forall i :: 0 <= i < |p| ==> p[i] < |t.children| && s.children[i] == SortTree(order, t.children[p[i]])
  {
    p := OrderOf(order, t);
  }

  predicate StartSorted(spans: seq<Span>) {
    forall i, j :: 0 <= i < j < |spans| ==> spans[i].info.startTime <= spans[j].info.startTime
  }

  function Height(t: Span): nat { 1 + HeightAll(t.children) }

  function HeightAll(ts: seq<Span>): nat {
    if ts == [] then 0
    else
      var h, rest := Height(ts[|ts| - 1]), HeightAll(ts[..|ts| - 1]);
      if h > rest then h else rest
  }

  lemma {:induction false} HeightOfMember(ts: seq<Span>, i: nat)
    requires i < |ts|
    ensures Height(ts[i]) <= HeightAll(ts)
  {
    if i < |ts| - 1 {
      HeightOfMember(ts[..|ts| - 1], i);
    }
  }

  lemma {:induction false} HeightBound(ts: seq<Span>, h: nat)
    requires forall i :: 0 <= i < |ts| ==> Height(ts[i]) <= h
    ensures HeightAll(ts) <= h
  {
    if ts != [] {
      HeightBound(ts[..|ts| - 1], h);
    }
  }

  lemma {:induction false} SortTreeHeight(order: Order, t: Span)
    requires Sorts(order)
    ensures Height(SortTree(order, t)) <= Height(t)
    decreases t
  {
    hide SortTree, Sorts;
    var p := SortTreeIs(order, t);
    var s := SortTree(order, t);
    forall i | 0 <= i < |s.children|
      ensures Height(s.children[i]) <= HeightAll(t.children)
    {
      SortTreeHeight(order, t.children[p[i]]);
      HeightOfMember(t.children, p[i]);
    }
    HeightBound(s.children, HeightAll(t.children));
  }

  // ---------- sorted copies ----------

  /** What a copy has in common with its original, span by span. */
  type Likeness = (Span, Span) -> bool

  ghost predicate Matches(like: Likeness, t: Span, u: Span, p: seq<nat>)
    decreases t, 0
  {
    && IsPermutation(p, |t.children|) && |p| == |u.children| == |t.children|
    && forall i :: 0 <= i < |p| ==> p[i] < |t.children| && CopyOf(like, t.children[p[i]], u.children[i])
  }

  /** u is like t, span by span, with every list of children permuted so that start times are in order. */
  ghost predicate CopyOf(like: Likeness, t: Span, u: Span)
    decreases t, 1
  {
    like(t, u) && StartSorted(u.children) && exists p: seq<nat> :: Matches(like, t, u, p)
  }

  predicate SameInfo(t: Span, u: Span) { u.info == t.info }

  /** u is t, but for tags, with every list of children permuted so that start times are in order. */
  ghost predicate SortedCopy(t: Span, u: Span) { CopyOf(SameInfo, t, u) }

  /** A likeness says at least that the data is the same; it composes, and says nothing about children. */
  ghost predicate Lawful(like: Likeness) {
    && (forall t: Span, u: Span :: like(t, u) ==> u.info == t.info)
    && (forall t: Span, u: Span, v: Span :: like(t, u) && like(u, v) ==> like(t, v))
    && (forall t: Span, kids: seq<Span> :: like(t, t.(children := kids)))
  }

  lemma SameInfoLawful()
    ensures Lawful(SameInfo)
  {
  }

  lemma CopyHasInfo(like: Likeness, t: Span, u: Span)
    requires Lawful(like) && CopyOf(like, t, u)
    ensures u.info == t.info
  {
  }

  lemma LikeSorted(like: Likeness, t: Span, s: Span)
    requires Lawful(like) && s == t.(children := s.children)
    ensures like(t, s)
  {
  }

  lemma {:induction false} SortTreeIsCopy(like: Likeness, order: Order, t: Span)
    requires Sorts(order) && Lawful(like)
    ensures CopyOf(like, t, SortTree(order, t))
    decreases t
  {
    hide SortTree, Sorts, Lawful;
    var p := SortTreeIs(order, t);
    var s := SortTree(order, t);
    LikeSorted(like, t, s);
    forall i | 0 <= i < |p|
      ensures CopyOf(like, t.children[p[i]], s.children[i]) && s.children[i].info.startTime == Starts(t.children)[p[i]]
    {
      SortTreeIsCopy(like, order, t.children[p[i]]);
      CopyHasInfo(like, t.children[p[i]], s.children[i]);
    }
    forall i, j | 0 <= i < j < |p|
      ensures s.children[i].info.startTime <= s.children[j].info.startTime
    {
      InOrderAt(Starts(t.children), p, i, j);
    }
    assert Matches(like, t, s, p);
  }

  lemma LikeComposes(like: Likeness, t: Span, u: Span, v: Span)
    requires Lawful(like) && like(t, u) && like(u, v)
    ensures like(t, v)
  {
  }

  lemma {:induction false} CopyOfCopy(like: Likeness, t: Span, u: Span, v: Span)
    requires Lawful(like) && CopyOf(like, t, u) && CopyOf(like, u, v)
    ensures CopyOf(like, t, v)
    decreases t
  {
    hide Lawful;
    LikeComposes(like, t, u, v);
    var p: seq<nat> :| Matches(like, t, u, p);
    var q: seq<nat> :| Matches(like, u, v, q);
    var n := |t.children|;
    ComposePermutes(p, q, n);
    var r := Compose(p, q);
    forall i | 0 <= i < n
      ensures r[i] < n && CopyOf(like, t.children[r[i]], v.children[i])
    {
      CopyOfCopy(like, t.children[p[q[i]]], u.children[q[i]], v.children[i]);
    }
    assert Matches(like, t, v, r);
  }

  /** A tree whose children are, position by position, copies of the children of a sorted tree. */
  lemma CopyAtEachPosition(like: Likeness, t: Span, u: Span)
    requires Lawful(like) && like(t, u) && StartSorted(t.children) && |u.children| == |t.children|
    requires forall i :: 0 <= i < |t.children| ==> CopyOf(like, t.children[i], u.children[i])
    ensures CopyOf(like, t, u)
  {
    hide Lawful;
    var n := |t.children|;
    IdentityPermutes(n);
    forall i | 0 <= i < n
      ensures u.children[i].info == t.children[i].info
    {
      CopyHasInfo(like, t.children[i], u.children[i]);
    }
    assert Matches(like, t, u, Identity(n));
  }

  /** Equal but for tags, anywhere. */
  predicate EqualButTags(t: Span, u: Span) {
    u.info == t.info && |u.children| == |t.children| &&
    forall i :: 0 <= i < |t.children| ==> EqualButTags(t.children[i], u.children[i])
  }
}
