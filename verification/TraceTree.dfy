/** Building a trace from its spans as the program does it: the spans are shared objects, and their lists of
    children are extended in place. */
module TraceTree {
  import opened Options
  import opened Permutations
  import opened TraceTreeModel

  class Span {
    const traceId: string
    const spanId: string
    const parentSpanId: string
    const startTime: int
    const endTime: int
    var children: seq<Span>

    constructor (traceId: string, spanId: string, parentSpanId: string, startTime: int, endTime: int)
      ensures this.traceId == traceId && this.spanId == spanId && this.parentSpanId == parentSpanId
      ensures this.startTime == startTime && this.endTime == endTime && children == []
    {
      this.traceId, this.spanId, this.parentSpanId := traceId, spanId, parentSpanId;
      this.startTime, this.endTime := startTime, endTime;
      children := [];
    }
  }

  /** Times are in nanoseconds, the duration is in milliseconds. */
  datatype Trace = Trace(
    traceId: string, spans: seq<Span>, rootSpan: Option<Span>, startTime: int, endTime: int, durationMs: real)

  function Records(spans: seq<Span>): seq<Record> {
    seq(|spans|, i requires 0 <= i < |spans| => Record(spans[i].spanId, spans[i].parentSpanId))
  }

  /** The spans among the first k whose parent is this object. */
  function Attached(spans: seq<Span>, parent: Span, k: nat): seq<Span>
    requires k <= |spans|
  {
    if k == 0 then []
    else
      var p := Parent(Records(spans), k - 1);
      Attached(spans, parent, k - 1) + if p.Some? && spans[p.value] == parent then [spans[k - 1]] else []
  }

  function Pick(spans: seq<Span>, indices: seq<nat>): seq<Span>
    requires forall i <- indices :: i < |spans|
  {
    seq(|indices|, k requires 0 <= k < |indices| => assert indices[k] in indices; spans[indices[k]])
  }

  /** The map from ids to spans, the last of equal ids winning, and the last span without parent id. */
  method IndexById(spans: seq<Span>) returns (spanMap: map<string, Span>, root: Option<Span>)
    ensures forall id :: id in spanMap <==> LastWith(Records(spans), id, |spans|).Some?
    ensures forall id :: id in spanMap ==> spanMap[id] == spans[LastWith(Records(spans), id, |spans|).value]
    ensures root == match Root(Records(spans)) case None => None case Some(i) => Some(spans[i])
  {
    spanMap, root := map[], None;
    for k := 0 to |spans|
      invariant forall id :: id in spanMap <==> LastWith(Records(spans), id, k).Some?
      invariant forall id :: id in spanMap ==> spanMap[id] == spans[LastWith(Records(spans), id, k).value]
      invariant root == match RootAmong(Records(spans), k) case None => None case Some(i) => Some(spans[i])
    {
      spanMap := spanMap[spans[k].spanId := spans[k]];
      if spans[k].parentSpanId == "" {
        root := Some(spans[k]);
      }
    }
  }

  /** Before them come the children that the span had already. */
  lemma AttachedNext(spans: seq<Span>, s: Span, k: nat, before: seq<Span>)
    requires k < |spans|
    ensures var p := Parent(Records(spans), k);
            before + Attached(spans, s, k + 1) ==
            before + Attached(spans, s, k) + if p.Some? && spans[p.value] == s then [spans[k]] else []
  {
    hide Parent, Records;
  }

  lemma NoneAttached(spans: seq<Span>, before: seq<Span>)
    ensures forall s: Span :: before + Attached(spans, s, 0) == before
  {
  }

  /** The map leads to the parent, if there is one. */
  lemma ParentFound(spans: seq<Span>, spanMap: map<string, Span>, k: nat)
    requires forall id :: id in spanMap <==> LastWith(Records(spans), id, |spans|).Some?
    requires forall id :: id in spanMap ==> spanMap[id] == spans[LastWith(Records(spans), id, |spans|).value]
    requires k < |spans|
    ensures var p, id := Parent(Records(spans), k), spans[k].parentSpanId;
            if id != "" && id in spanMap then p.Some? && spans[p.value] == spanMap[id] else p.None?
  {
    hide LastWith;
    assert Records(spans)[k] == Record(spans[k].spanId, spans[k].parentSpanId);
  }

  /** Hangs every span under its parent. */
  method AttachChildren(spans: seq<Span>, spanMap: map<string, Span>)
    requires forall id :: id in spanMap <==> LastWith(Records(spans), id, |spans|).Some?
    requires forall id :: id in spanMap ==> spanMap[id] == spans[LastWith(Records(spans), id, |spans|).value]
    modifies (set s | s in spans)`children
    ensures forall s <- spans :: s.children == old(s.children) + Attached(spans, s, |spans|)
  {
    hide LastWith, Attached, Parent, Records;
    forall s | s in spans
      ensures s.children == old(s.children) + Attached(spans, s, 0)
    {
      NoneAttached(spans, s.children);
    }
    for k := 0 to |spans|
      invariant forall s <- spans :: s.children == old(s.children) + Attached(spans, s, k)
    {
      var span := spans[k];
      ParentFound(spans, spanMap, k);
      if span.parentSpanId != "" && span.parentSpanId in spanMap {
        var parent := spanMap[span.parentSpanId];
        parent.children := parent.children + [span];
      }
      forall s | s in spans
        ensures s.children == old(s.children) + Attached(spans, s, k + 1)
      {
        AttachedNext(spans, s, k, old(s.children));
      }
    }
  }

  method Extent(spans: seq<Span>) returns (start: int, end: int)
    requires spans != []
    ensures forall s <- spans :: start <= s.startTime && s.endTime <= end
    ensures (exists s <- spans :: s.startTime == start) && exists s <- spans :: s.endTime == end
  {
    start, end := spans[0].startTime, spans[0].endTime;
    for k := 0 to |spans|
      invariant forall i :: 0 <= i < k ==> start <= spans[i].startTime && spans[i].endTime <= end
      invariant (exists s <- spans :: s.startTime == start) && exists s <- spans :: s.endTime == end
    {
      if spans[k].startTime < start {
        start := spans[k].startTime;
      }
      if spans[k].endTime > end {
        end := spans[k].endTime;
      }
    }
  }

  method BuildTraceTree(spans: seq<Span>) returns (trace: Option<Trace>)
    modifies (set s | s in spans)`children
    ensures spans == [] <==> trace == None
    ensures forall s <- spans :: s.children == old(s.children) + Attached(spans, s, |spans|)
    ensures trace.Some? ==>
              var t := trace.value;
              && t.traceId == spans[0].traceId && t.spans == spans
              && t.rootSpan == (match Root(Records(spans)) case None => None case Some(i) => Some(spans[i]))
              && (forall s <- spans :: t.startTime <= s.startTime && s.endTime <= t.endTime)
              && (exists s <- spans :: s.startTime == t.startTime) && (exists s <- spans :: s.endTime == t.endTime)
              && t.durationMs == (t.endTime - t.startTime) as real / 1_000_000.0
  {
    if |spans| == 0 {
      return None;
    }
    var spanMap, root := IndexById(spans);
    AttachChildren(spans, spanMap);
    var start, end := Extent(spans);
    trace := Some(Trace(spans[0].traceId, spans, root, start, end, (end - start) as real / 1_000_000.0));
  }

  // ---------- the objects show the tree ----------

  ghost predicate Distinct(spans: seq<Span>) {
    forall i, j :: 0 <= i < j < |spans| ==> spans[i] != spans[j]
  }

  lemma NothingPicked(spans: seq<Span>)
    ensures Pick(spans, []) == []
  {
  }

  lemma AsManyRecords(spans: seq<Span>)
    ensures |Records(spans)| == |spans|
  {
  }

  lemma SameObject(spans: seq<Span>, i: nat, j: nat)
    requires Distinct(spans) && i < |spans| && j < |spans|
    ensures spans[i] == spans[j] <==> i == j
  {
  }

  lemma PickSnoc(spans: seq<Span>, cs: seq<nat>, c: nat)
    requires (forall i <- cs :: i < |spans|) && c < |spans|
    ensures Pick(spans, cs + [c]) == Pick(spans, cs) + [spans[c]]
  {
  }

  lemma {:induction false} AttachedIsPick(spans: seq<Span>, i: nat, k: nat)
    requires Distinct(spans) && i < |spans| && k <= |spans|
    ensures forall c <- ChildrenAmong(Records(spans), i, k) :: c < |spans|
    ensures Attached(spans, spans[i], k) == Pick(spans, ChildrenAmong(Records(spans), i, k))
  {
    hide Records, Parent, Distinct, Pick;
    if k == 0 {
      assert Pick(spans, []) == [] by {
        NothingPicked(spans);
      }
    } else {
      AttachedIsPick(spans, i, k - 1);
      var recs := Records(spans);
      assert |recs| == |spans| by {
        AsManyRecords(spans);
      }
      var before, p := ChildrenAmong(recs, i, k - 1), Parent(recs, k - 1);
      if p.Some? {
        SameObject(spans, p.value, i);
      }
      if p == Some(i) {
        PickSnoc(spans, before, k - 1);
      } else {
        assert before + [] == before && Attached(spans, spans[i], k - 1) + [] == Attached(spans, spans[i], k - 1);
      }
    }
  }

  /** The object of every node has the objects of the node's kids as its children, in order. */
  ghost predicate Shows(spans: seq<Span>, t: Tree)
    reads spans
  {
    && t.span < |spans| && (forall c <- Roots(t.kids) :: c < |spans|)
    && spans[t.span].children == Pick(spans, Roots(t.kids))
    && forall kid <- t.kids :: Shows(spans, kid)
  }

  /** What the objects show when every list of children started empty. */
  ghost predicate Attaches(spans: seq<Span>)
    reads spans
  {
    forall s <- spans :: s.children == Attached(spans, s, |spans|)
  }

  lemma {:induction false} TreeShown(spans: seq<Span>, t: Tree)
    requires Distinct(spans) && Attaches(spans) && IsTreeOf(Records(spans), t)
    ensures Shows(spans, t)
    decreases t
  {
    var i := t.span;
    assert spans[i] in spans;
    AttachedIsPick(spans, i, |spans|);
    forall kid | kid in t.kids
      ensures Shows(spans, kid)
    {
      TreeShown(spans, kid);
    }
  }

  /** What hangs under the root span afterwards, for distinct spans that had no children: a finite tree, in
      which each span that descends from the root comes exactly once, and no other; it spans the whole list
      exactly when only the root is without a parent and parents do not run in circles. */
  lemma {:induction false} RootSpanTree(spans: seq<Span>) returns (t: Tree)
    requires Distinct(spans) && Attaches(spans) && Root(Records(spans)).Some?
    ensures t.span == Root(Records(spans)).value && Shows(spans, t)
    ensures forall j: nat :: j < |spans| ==>
              Count(j, Preorder(t)) == if Descends(Records(spans), j, t.span) then 1 else 0
    ensures IsPermutation(Preorder(t), |spans|) <==>
            && (forall j: nat :: j < |spans| && j != t.span ==> Parent(Records(spans), j).Some?)
            && (forall j: nat :: j < |spans| ==> Ends(Records(spans), j))
  {
    hide IsTreeOf, Shows, Preorder, Parent, Ends, Attaches, Descends, IsPermutation;
    t := RootTree(Records(spans));
    TreeShown(spans, t);
    forall j: nat | j < |spans|
      ensures Count(j, Preorder(t)) == if Descends(Records(spans), j, t.span) then 1 else 0
    {
      PreorderHasDescendantsOnce(Records(spans), t, j);
    }
    SpansIff(Records(spans), t);
  }
}
