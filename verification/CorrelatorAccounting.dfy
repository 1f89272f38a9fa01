/** What the correlator's counters and its output mean, over every run of whole events.

    Spans are counted with a weight function: with Unit a sum counts spans, with Only(i) it counts
    the occurrences of span i. Every law is proved for all weights at once. */
module CorrelatorAccounting {
  import opened CorrelatorModel

  type Weight = nat -> nat

  function Unit(i: nat): nat { 1 }

  function Only(i: nat): Weight {
    (j: nat) => if j == i then 1 else 0
  }

  ghost function Weigh(ids: seq<nat>, w: Weight): nat {
    if ids == [] then 0 else w(ids[0]) + Weigh(ids[1..], w)
  }

  lemma {:induction false} WeighConcat(a: seq<nat>, b: seq<nat>, w: Weight)
    ensures Weigh(a + b, w) == Weigh(a, w) + Weigh(b, w)
  {
    if a == [] {
      assert a + b == b;
    } else {
      WeighConcat(a[1..], b, w);
      assert (a + b)[1..] == a[1..] + b;
    }
  }

  lemma WeighSnoc(a: seq<nat>, i: nat, w: Weight)
    ensures Weigh(a + [i], w) == Weigh(a, w) + w(i)
  {
    WeighConcat(a, [i], w);
  }

  lemma WeighOne(i: nat, w: Weight)
    ensures Weigh([i], w) == w(i)
  {
    WeighSnoc([], i, w);
  }

  lemma WeighUnit(ids: seq<nat>)
    ensures Weigh(ids, Unit) == |ids|
  {
  }

  // ---------- what the facts of a run add up to ----------

  /** Requests that left a queue, for whatever reason. */
  function Leaving(f: Fact): seq<nat> {
    match f
    case MatchedInRecv(req, _, _) => [req]
    case MatchedLate(req, _, _) => [req]
    case Evicted(req) => [req]
    case Closed(reqs) => reqs
    case TimedOut(reqs) => reqs
    case Overwritten(reqs) => reqs
  }

  /** Requests handed to the span handler when they left their queue. */
  function Reporting(f: Fact): seq<nat> {
    if f.Overwritten? then [] else Leaving(f)
  }

  predicate IsMatch(f: Fact) { f.MatchedInRecv? || f.MatchedLate? }

  function Responding(f: Fact): seq<nat> {
    if IsMatch(f) then [f.resp] else []
  }

  /** Responses that handleRecv emits and ProcessEvent emits again. */
  function RespondingInRecv(f: Fact): seq<nat> {
    if f.MatchedInRecv? then [f.resp] else []
  }

  /** Requests a gauge keeps counting although they left: evicted ones and those of overwritten flows. */
  function Drifting(f: Fact): seq<nat> {
    if f.Evicted? || f.Overwritten? then Leaving(f) else []
  }

  function EvictedReqs(f: Fact): seq<nat> { if f.Evicted? then Leaving(f) else [] }
  function ClosedReqs(f: Fact): seq<nat> { if f.Closed? then Leaving(f) else [] }
  function TimedOutReqs(f: Fact): seq<nat> { if f.TimedOut? then Leaving(f) else [] }
  function MatchedReqs(f: Fact): seq<nat> { if f.MatchedInRecv? then Leaving(f) else [] }
  function OverwrittenReqs(f: Fact): seq<nat> { if f.Overwritten? then Leaving(f) else [] }
  function LateReqs(f: Fact): seq<nat> { if f.MatchedLate? then Leaving(f) else [] }

  ghost function Collect(hist: seq<Fact>, part: Fact -> seq<nat>, w: Weight): nat {
    if hist == [] then 0
    else Collect(hist[..|hist| - 1], part, w) + Weigh(part(hist[|hist| - 1]), w)
  }

  ghost function Overwrites(hist: seq<Fact>): nat {
    if hist == [] then 0
    else Overwrites(hist[..|hist| - 1]) + if hist[|hist| - 1].Overwritten? then 1 else 0
  }

  // ---------- the requests waiting in all live queues ----------

  ghost function Pick(m: map<string, Flow>): string
    requires m != map[]
    ensures Pick(m) in m
  {
    var k :| k in m; k
  }

  ghost function Queued(m: map<string, Flow>, w: Weight): nat
    decreases m.Keys
  {
    if m == map[] then 0
    else
      var k := Pick(m);
      Weigh(SpansOf(m[k].queue), w) + Queued(m - {k}, w)
  }

  lemma {:induction false} QueuedAt(m: map<string, Flow>, k: string, w: Weight)
    requires k in m
    ensures Queued(m, w) == Weigh(SpansOf(m[k].queue), w) + Queued(m - {k}, w)
    decreases m.Keys
  {
    var p := Pick(m);
    if p != k {
      var mp, mk := m - {p}, m - {k};
      QueuedAt(mp, k, w);
      QueuedAt(mk, p, w);
      assert mp - {k} == mk - {p};
    }
  }

  lemma WithoutUpdated<K, V>(m: map<K, V>, k: K, v: V)
    ensures m[k := v] - {k} == m - {k}
  {
  }

  lemma UpdatedSize<K, V>(m: map<K, V>, k: K, v: V)
    ensures |m[k := v]| == |m| + if k in m then 0 else 1
  {
    assert m[k := v].Keys == m.Keys + {k};
    assert |m[k := v]| == |m[k := v].Keys| && |m| == |m.Keys|;
  }

  /** Replacing one flow changes the sum by the difference of the two queues. */
  lemma QueuedUpdate(m: map<string, Flow>, k: string, f: Flow, w: Weight)
    ensures Queued(m[k := f], w) + (if k in m then Weigh(SpansOf(m[k].queue), w) else 0)
         == Queued(m, w) + Weigh(SpansOf(f.queue), w)
    ensures |m[k := f]| == |m| + if k in m then 0 else 1
  {
    hide Queued, Weigh, SpansOf;
    QueuedAt(m[k := f], k, w);
    WithoutUpdated(m, k, f);
    UpdatedSize(m, k, f);
    if k in m {
      QueuedAt(m, k, w);
    } else {
      assert m - {k} == m;
    }
  }

  lemma QueuedRemove(m: map<string, Flow>, k: string, w: Weight)
    requires k in m
    ensures Queued(m, w) == Queued(m - {k}, w) + Weigh(SpansOf(m[k].queue), w)
    ensures |m - {k}| == |m| - 1
  {
    QueuedAt(m, k, w);
    assert (m - {k}).Keys == m.Keys - {k};
    assert |m - {k}| == |(m - {k}).Keys| && |m| == |m.Keys|;
  }

  lemma SnocQueue(q: seq<Request>, r: Request, w: Weight)
    ensures Weigh(SpansOf(q + [r]), w) == Weigh(SpansOf(q), w) + w(r.span)
  {
    WeighSnoc(SpansOf(q), r.span, w);
    assert SpansOf(q + [r]) == SpansOf(q) + [r.span];
  }

  lemma TailQueue(q: seq<Request>, w: Weight)
    requires q != []
    ensures Weigh(SpansOf(q), w) == w(q[0].span) + Weigh(SpansOf(q[1..]), w)
  {
    assert SpansOf(q)[1..] == SpansOf(q[1..]);
  }

  // ---------- the books ----------

  /** Where the spans stand, by weight. */
  datatype Book = Book(
    queued: nat, gone: nat, reported: nat, responses: nat, doubled: nat, waiting: nat, log: nat, drift: nat,
    evicted: nat)

  ghost function BookOf(s: State, w: Weight): Book {
    Book(Queued(s.conns, w), Collect(s.hist, Leaving, w), Collect(s.hist, Reporting, w),
         Collect(s.hist, Responding, w), Collect(s.hist, RespondingInRecv, w),
         Weigh(WaitingSpans(s.pending), w), Weigh(s.log, w), Collect(s.hist, Drifting, w),
         Collect(s.hist, EvictedReqs, w))
  }

  /** b' is b with fact f recorded, req taken from the queues and the given spans emitted. */
  ghost predicate Recorded(b: Book, b': Book, f: Fact, w: Weight) {
    && b'.gone == b.gone + Weigh(Leaving(f), w)
    && b'.reported == b.reported + Weigh(Reporting(f), w)
    && b'.responses == b.responses + Weigh(Responding(f), w)
    && b'.doubled == b.doubled + Weigh(RespondingInRecv(f), w)
    && b'.drift == b.drift + Weigh(Drifting(f), w)
    && b'.evicted == b.evicted + Weigh(EvictedReqs(f), w)
    && b'.queued + Weigh(Leaving(f), w) == b.queued
    && b'.waiting == b.waiting
  }

  ghost function Emitted(s: State, x: nat): nat {
    if s.cfg.handlerSet then x else 0
  }

  lemma CollectSnoc(hist: seq<Fact>, f: Fact, part: Fact -> seq<nat>, w: Weight)
    ensures Collect(hist + [f], part, w) == Collect(hist, part, w) + Weigh(part(f), w)
    ensures Overwrites(hist + [f]) == Overwrites(hist) + if f.Overwritten? then 1 else 0
  {
    assert (hist + [f])[..|hist|] == hist;
  }

  lemma RecordFact(s: State, f: Fact, s': State, w: Weight)
    requires s'.hist == s.hist + [f] && s'.pending == s.pending
    requires Queued(s'.conns, w) + Weigh(Leaving(f), w) == Queued(s.conns, w)
    ensures Recorded(BookOf(s, w), BookOf(s', w), f, w)
    ensures Overwrites(s'.hist) == Overwrites(s.hist) + if f.Overwritten? then 1 else 0
  {
    CollectSnoc(s.hist, f, Leaving, w);
    CollectSnoc(s.hist, f, Reporting, w);
    CollectSnoc(s.hist, f, Responding, w);
    CollectSnoc(s.hist, f, RespondingInRecv, w);
    CollectSnoc(s.hist, f, Drifting, w);
    CollectSnoc(s.hist, f, EvictedReqs, w);
  }

  // ---------- what each handler enters in the books ----------

  lemma EmitBook(s: State, i: nat, w: Weight)
    ensures BookOf(Emit(s, i), w) == BookOf(s, w).(log := BookOf(s, w).log + Emitted(s, w(i)))
  {
    WeighSnoc(s.log, i, w);
  }

  lemma OpenBook(s: State, key: string, w: Weight)
    ensures var s' := Open(s, key);
            if key in s.conns then
              Recorded(BookOf(s, w), BookOf(s', w), Overwritten(SpansOf(s.conns[key].queue)), w) && s'.log == s.log
            else BookOf(s', w) == BookOf(s, w)
  {
    QueuedUpdate(s.conns, key, EMPTY_FLOW, w);
    if key in s.conns {
      RecordFact(s, Overwritten(SpansOf(s.conns[key].queue)), Open(s, key), w);
    }
  }

  lemma GetOrCreateBook(s: State, key: string, w: Weight)
    ensures BookOf(GetOrCreateFlow(s, key), w) == BookOf(s, w)
  {
    QueuedUpdate(s.conns, key, EMPTY_FLOW, w);
  }

  lemma TouchBook(s: State, key: string, f: Flow, w: Weight)
    requires key in s.conns && f.queue == s.conns[key].queue
    ensures BookOf(s.(conns := s.conns[key := f]), w) == BookOf(s, w)
  {
    QueuedUpdate(s.conns, key, f, w);
  }

  lemma EvictRecorded(s: State, key: string, w: Weight)
    requires key in s.conns
    ensures var s' := EvictIfFull(s, key);
            s' == s ||
            (s.conns[key].queue != [] &&
             var req := s.conns[key].queue[0].span;
             Recorded(BookOf(s, w), BookOf(s', w), Evicted(req), w) &&
             BookOf(s', w).log == BookOf(s, w).log + Emitted(s, w(req)))
  {
    var flow := s.conns[key];
    if |flow.queue| >= s.cfg.maxInflight && |flow.queue| > 0 {
      var req := flow.queue[0].span;
      var s1 := s.(conns := s.conns[key := flow.(queue := flow.queue[1..])],
                   stats := s.stats.(dropped := s.stats.dropped + 1), hist := s.hist + [Evicted(req)]);
      QueuedUpdate(s.conns, key, flow.(queue := flow.queue[1..]), w);
      TailQueue(flow.queue, w);
      RecordFact(s, Evicted(req), s1, w);
      EmitBook(s1, req, w);
    }
  }

  lemma RecordedEvict(b: Book, b': Book, req: nat, w: Weight)
    requires Recorded(b, b', Evicted(req), w)
    ensures w(req) <= b.queued
    ensures b' == b.(queued := b.queued - w(req), gone := b.gone + w(req), reported := b.reported + w(req),
                     drift := b.drift + w(req), evicted := b.evicted + w(req), log := b'.log)
  {
    WeighOne(req, w);
  }

  lemma EvictBook(s: State, key: string, w: Weight)
    requires key in s.conns
    ensures var s' := EvictIfFull(s, key); var b := BookOf(s, w);
            s' == s ||
            (s.conns[key].queue != [] &&
             var x := w(s.conns[key].queue[0].span);
             x <= b.queued &&
             BookOf(s', w) == b.(queued := b.queued - x, gone := b.gone + x, reported := b.reported + x,
                                 drift := b.drift + x, evicted := b.evicted + x, log := b.log + Emitted(s, x)))
  {
    hide EvictIfFull, BookOf, Recorded, Emitted;
    EvictRecorded(s, key, w);
    if EvictIfFull(s, key) != s {
      RecordedEvict(BookOf(s, w), BookOf(EvictIfFull(s, key), w), s.conns[key].queue[0].span, w);
    }
  }

  lemma EnqueueBook(s: State, i: nat, key: string, now: int, w: Weight)
    requires key in s.conns && i < |s.spans|
    ensures BookOf(Enqueue(s, i, key, now), w) == BookOf(s, w).(queued := BookOf(s, w).queued + w(i))
  {
    var flow := s.conns[key];
    var seqNo := flow.seqCounter + 1;
    QueuedUpdate(s.conns, key, flow.(queue := flow.queue + [Request(i, seqNo, now)], seqCounter := seqNo), w);
    SnocQueue(flow.queue, Request(i, seqNo, now), w);
  }

  lemma MatchRecorded(s: State, i: nat, key: string, now: int, late: bool, w: Weight)
    requires i < |s.spans| && key in s.conns && s.conns[key].queue != []
    ensures var s' := MatchFront(s, i, key, now, late);
            var req := s.conns[key].queue[0].span;
            Recorded(BookOf(s, w), BookOf(s', w), MatchFact(req, i, now - s.conns[key].queue[0].sendTime, late), w) &&
            BookOf(s', w).log == BookOf(s, w).log + Emitted(s, w(req) + w(i))
  {
    hide Queued, Weigh, Collect, Answer, WaitingSpans, SpansOf;
    var flow := s.conns[key];
    var req := flow.queue[0].span;
    var s' := MatchFront(s, i, key, now, late);
    var s1 := s'.(log := s.log, stats := s.stats);
    QueuedUpdate(s.conns, key, flow.(queue := flow.queue[1..]), w);
    TailQueue(flow.queue, w);
    WeighOne(req, w);
    RecordFact(s, MatchFact(req, i, now - flow.queue[0].sendTime, late), s1, w);
    EmitBook(s1, req, w);
    EmitBook(Emit(s1, req), i, w);
  }

  lemma RecordedMatch(b: Book, b': Book, req: nat, i: nat, elapsed: int, late: bool, w: Weight)
    requires Recorded(b, b', MatchFact(req, i, elapsed, late), w)
    ensures w(req) <= b.queued
    ensures b' == b.(queued := b.queued - w(req), gone := b.gone + w(req), reported := b.reported + w(req),
                     responses := b.responses + w(i), doubled := b.doubled + (if late then 0 else w(i)), log := b'.log)
  {
    WeighOne(req, w);
    WeighOne(i, w);
  }

  lemma MatchBook(s: State, i: nat, key: string, now: int, late: bool, w: Weight)
    requires i < |s.spans| && key in s.conns && s.conns[key].queue != []
    ensures var b, b' := BookOf(s, w), BookOf(MatchFront(s, i, key, now, late), w);
            var x := w(s.conns[key].queue[0].span);
            x <= b.queued &&
            b' == b.(queued := b.queued - x, gone := b.gone + x, reported := b.reported + x,
                     responses := b.responses + w(i), doubled := b.doubled + (if late then 0 else w(i)),
                     log := b.log + Emitted(s, x + w(i)))
  {
    hide MatchFront, BookOf, Recorded, Emitted;
    MatchRecorded(s, i, key, now, late, w);
    var req := s.conns[key].queue[0];
    RecordedMatch(BookOf(s, w), BookOf(MatchFront(s, i, key, now, late), w), req.span, i, now - req.sendTime, late, w);
  }

  lemma EmitAllBook(s: State, ids: seq<nat>, tag: string, onlyIfHandled: bool, w: Weight)
    ensures var s' := EmitAll(s, ids, tag, onlyIfHandled);
            BookOf(s', w) == BookOf(s, w).(log := BookOf(s, w).log + Emitted(s, Weigh(ids, w)))
    decreases |ids|
  {
    if ids != [] {
      var s1 := if onlyIfHandled && !s.cfg.handlerSet then s else SetSpan(s, ids[0], Deref(s.spans, ids[0]).Tagged(tag, Flag));
      EmitBook(s1, ids[0], w);
      EmitAllBook(Emit(s1, ids[0]), ids[1..], tag, onlyIfHandled, w);
    }
  }

  function DropFact(ids: seq<nat>, closing: bool): Fact {
    if closing then Closed(ids) else TimedOut(ids)
  }

  lemma DropRecorded(s: State, key: string, closing: bool, w: Weight)
    requires key in s.conns
    ensures var s' := DropFlow(s, key, closing);
            var ids := SpansOf(s.conns[key].queue);
            Recorded(BookOf(s, w), BookOf(s', w), DropFact(ids, closing), w) &&
            BookOf(s', w).log == BookOf(s, w).log + Emitted(s, Weigh(ids, w))
  {
    var ids := SpansOf(s.conns[key].queue);
    EmitAllBook(s, ids, if closing then "connection_closed" else "connection_timeout", closing, w);
    QueuedRemove(s.conns, key, w);
    RecordFact(s, DropFact(ids, closing), DropFlow(s, key, closing), w);
  }

  lemma RecordedDrop(b: Book, b': Book, ids: seq<nat>, closing: bool, w: Weight)
    requires Recorded(b, b', DropFact(ids, closing), w)
    ensures Weigh(ids, w) <= b.queued
    ensures b' == b.(queued := b.queued - Weigh(ids, w), gone := b.gone + Weigh(ids, w),
                     reported := b.reported + Weigh(ids, w), log := b'.log)
  {
  }

  lemma DropBook(s: State, key: string, closing: bool, w: Weight)
    requires key in s.conns
    ensures var b, b' := BookOf(s, w), BookOf(DropFlow(s, key, closing), w);
            var x := Weigh(SpansOf(s.conns[key].queue), w);
            x <= b.queued &&
            b' == b.(queued := b.queued - x, gone := b.gone + x, reported := b.reported + x, log := b.log + Emitted(s, x))
  {
    DropRecorded(s, key, closing, w);
    RecordedDrop(BookOf(s, w), BookOf(DropFlow(s, key, closing), w), SpansOf(s.conns[key].queue), closing, w);
  }

  lemma WithoutSpanBook(pending: seq<Waiting>, i: nat, w: Weight)
    ensures Weigh(WaitingSpans(WithoutSpan(pending, i)), w) + (if i in WaitingSpans(pending) then w(i) else 0)
         == Weigh(WaitingSpans(pending), w)
  {
    if pending != [] {
      var rest := pending[1..];
      assert WaitingSpans(pending)[1..] == WaitingSpans(rest);
      assert WaitingSpans(pending) == [pending[0].span] + WaitingSpans(rest);
      if pending[0].span != i {
        WithoutSpanBook(rest, i, w);
        var out := WithoutSpan(rest, i);
        assert WaitingSpans([pending[0]] + out)[1..] == WaitingSpans(out);
      }
    }
  }

  // ---------- the four gauges ----------

  /** The value every counter of the correlator has. */
  ghost predicate Gauged(s: State) {
    var b := BookOf(s, Unit);
    && s.stats.total == |s.spans|
    && s.stats.processed == |s.log|
    && s.stats.dropped == b.evicted
    && s.stats.inflight == b.queued + b.drift
    && s.stats.active == |s.conns| + Overwrites(s.hist)
  }

  lemma EmitGauged(s: State, i: nat)
    requires Gauged(s)
    ensures Gauged(Emit(s, i))
  {
    EmitBook(s, i, Unit);
  }

  lemma OpenGauged(s: State, key: string)
    requires Gauged(s)
    ensures Gauged(Open(s, key))
  {
    OpenBook(s, key, Unit);
    QueuedUpdate(s.conns, key, EMPTY_FLOW, Unit);
    if key in s.conns {
      CollectSnoc(s.hist, Overwritten(SpansOf(s.conns[key].queue)), Leaving, Unit);
    }
  }

  lemma GetOrCreateGauged(s: State, key: string)
    requires Gauged(s)
    ensures Gauged(GetOrCreateFlow(s, key))
  {
    if key !in s.conns {
      OpenGauged(s, key);
    }
  }

  lemma TouchGauged(s: State, key: string, f: Flow)
    requires Gauged(s) && key in s.conns && f.queue == s.conns[key].queue
    ensures Gauged(s.(conns := s.conns[key := f]))
  {
    TouchBook(s, key, f, Unit);
    QueuedUpdate(s.conns, key, f, Unit);
  }

  lemma EvictGauged(s: State, key: string)
    requires Gauged(s) && key in s.conns
    ensures Gauged(EvictIfFull(s, key))
  {
    var flow := s.conns[key];
    if |flow.queue| >= s.cfg.maxInflight && |flow.queue| > 0 {
      EvictBook(s, key, Unit);
      QueuedUpdate(s.conns, key, flow.(queue := flow.queue[1..]), Unit);
      CollectSnoc(s.hist, Evicted(flow.queue[0].span), Leaving, Unit);
    }
  }

  lemma EnqueueGauged(s: State, i: nat, key: string, now: int)
    requires Gauged(s) && key in s.conns && i < |s.spans|
    ensures Gauged(Enqueue(s, i, key, now))
  {
    EnqueueBook(s, i, key, now, Unit);
    QueuedUpdate(s.conns, key, Enqueue(s, i, key, now).conns[key], Unit);
  }

  lemma MatchGauged(s: State, i: nat, key: string, now: int, late: bool)
    requires Gauged(s) && i < |s.spans| && key in s.conns && s.conns[key].queue != []
    ensures Gauged(MatchFront(s, i, key, now, late))
  {
    hide Queued, Weigh, Answer;
    var req := s.conns[key].queue[0].span;
    MatchBook(s, i, key, now, late, Unit);
    QueuedUpdate(s.conns, key, s.conns[key].(queue := s.conns[key].queue[1..]), Unit);
    CollectSnoc(s.hist, MatchFact(req, i, now - s.conns[key].queue[0].sendTime, late), Leaving, Unit);
  }

  lemma EmitAllGauged(s: State, ids: seq<nat>, tag: string, onlyIfHandled: bool)
    requires Gauged(s)
    ensures var s' := EmitAll(s, ids, tag, onlyIfHandled);
            Gauged(s') && s'.stats == s.stats.(processed := s'.stats.processed)
    decreases |ids|
  {
    if ids != [] {
      var s1 := if onlyIfHandled && !s.cfg.handlerSet then s else SetSpan(s, ids[0], Deref(s.spans, ids[0]).Tagged(tag, Flag));
      assert Gauged(s1);
      EmitGauged(s1, ids[0]);
      EmitAllGauged(Emit(s1, ids[0]), ids[1..], tag, onlyIfHandled);
    }
  }

  lemma DropCounters(s: State, key: string, closing: bool)
    requires Gauged(s) && key in s.conns
    ensures var s' := DropFlow(s, key, closing);
            s'.stats == s.stats.(processed := |s'.log|, inflight := s.stats.inflight - |s.conns[key].queue|,
                                 active := s.stats.active - 1)
  {
    var ids := SpansOf(s.conns[key].queue);
    EmitAllGauged(s, ids, if closing then "connection_closed" else "connection_timeout", closing);
  }

  lemma DropBooks(s: State, key: string, closing: bool)
    requires key in s.conns
    ensures var s' := DropFlow(s, key, closing); var b, b' := BookOf(s, Unit), BookOf(s', Unit);
            && b'.queued == b.queued - |s.conns[key].queue| && b'.drift == b.drift && b'.evicted == b.evicted
            && |s'.conns| == |s.conns| - 1 && Overwrites(s'.hist) == Overwrites(s.hist)
  {
    var ids := SpansOf(s.conns[key].queue);
    DropBook(s, key, closing, Unit);
    QueuedRemove(s.conns, key, Unit);
    CollectSnoc(s.hist, if closing then Closed(ids) else TimedOut(ids), Leaving, Unit);
    WeighUnit(ids);
  }

  lemma DropGauged(s: State, key: string, closing: bool)
    requires Gauged(s) && key in s.conns
    ensures Gauged(DropFlow(s, key, closing))
  {
    DropCounters(s, key, closing);
    DropBooks(s, key, closing);
  }

  lemma SendGauged(s: State, i: nat, key: string, isRequest: bool, now: int)
    requires Gauged(s) && i < |s.spans|
    ensures Gauged(HandleSend(s, i, key, isRequest, now))
  {
    GetOrCreateGauged(s, key);
    var s0 := GetOrCreateFlow(s, key);
    TouchGauged(s0, key, s0.conns[key].(lastSend := At(now)));
    if isRequest {
      var s1 := TouchSend(s0, key, now);
      var s2 := SetSpan(s1, i, Deref(s1.spans, i).Named());
      assert Gauged(s2);
      EvictGauged(s2, key);
      EnqueueGauged(EvictIfFull(s2, key), i, key, now);
    }
  }

  lemma RecvGauged(s: State, i: nat, key: string, isResponse: bool, now: int)
    requires Gauged(s) && i < |s.spans|
    ensures Gauged(HandleRecv(s, i, key, isResponse, now))
  {
    GetOrCreateGauged(s, key);
    var s0 := GetOrCreateFlow(s, key);
    TouchGauged(s0, key, s0.conns[key].(lastRecv := At(now)));
    var s1 := TouchRecv(s0, key, now);
    if isResponse && s1.conns[key].queue != [] {
      MatchGauged(s1, i, key, now, false);
    }
  }

  lemma DispatchGauged(s: State, i: nat, key: string, e: Event, now: int)
    requires Gauged(s) && i < |s.spans|
    ensures Gauged(Dispatch(s, i, key, e, now))
  {
    hide Gauged, HandleSend, HandleRecv, Open, DropFlow, IsRequestPayload, IsResponsePayload;
    if e.eventType == EVENT_CONNECT || e.eventType == EVENT_ACCEPT {
      OpenGauged(s, key);
    } else if e.eventType == EVENT_SEND_TO {
      SendGauged(s, i, key, IsRequestPayload(e), now);
    } else if e.eventType == EVENT_RECV_FROM {
      RecvGauged(s, i, key, IsResponsePayload(e), now);
    } else if e.eventType == EVENT_CLOSE && key in s.conns {
      DropGauged(s, key, true);
    }
  }

  lemma ConcludeGauged(s: State, i: nat, key: string, e: Event, now: int)
    requires Gauged(s) && i < |s.spans|
    ensures Gauged(Conclude(s, i, key, e, now))
  {
    if s.spans[i].traceId != "" {
      EmitGauged(s, i);
    } else {
      var s0 := s.(pending := s.pending + [Waiting(i, now)]);
      assert Gauged(s0);
      GetOrCreateGauged(s0, key);
      var s1 := GetOrCreateFlow(s0, key);
      if e.eventType == EVENT_RECV_FROM && s1.conns[key].queue != [] {
        MatchGauged(s1, i, key, now, true);
      }
    }
  }

  lemma ExpirePendingGauged(s: State, j: nat, now: int)
    requires Gauged(s) && j <= |s.pending|
    ensures Gauged(ExpirePending(s, j, now))
    decreases |s.pending| - j
  {
    if j < |s.pending| {
      if now - s.pending[j].since > s.cfg.timeout {
        var i := s.pending[j].span;
        var s0 := SetSpan(s, i, Deref(s.spans, i).Named().Tagged("timeout", Flag));
        assert Gauged(s0);
        EmitGauged(s0, i);
        var s1 := Emit(s0, i);
        var s2 := s1.(pending := s.pending[..j] + s.pending[j + 1..]);
        assert Gauged(s2);
        ExpirePendingGauged(s2, j, now);
      } else {
        ExpirePendingGauged(s, j + 1, now);
      }
    }
  }

  lemma ExpireFlowsGauged(s: State, order: seq<string>, now: int)
    requires Gauged(s)
    ensures Gauged(ExpireFlows(s, order, now))
    decreases |order|
  {
    if order != [] {
      if FlowExpired(s, order[0], now) {
        DropGauged(s, order[0], false);
        ExpireFlowsGauged(DropFlow(s, order[0], false), order[1..], now);
      } else {
        ExpireFlowsGauged(s, order[1..], now);
      }
    }
  }

  /** In every run all five counters have the value the books give them. */
  lemma {:induction false} CountersExplained(cfg: Config, inputs: seq<Input>)
    ensures Gauged(Run(cfg, inputs))
  {
    if inputs != [] {
      var before := Run(cfg, inputs[..|inputs| - 1]);
      CountersExplained(cfg, inputs[..|inputs| - 1]);
      match inputs[|inputs| - 1]
      case Arrive(e, data, now) =>
        var s1 := Arrived(before, data);
        assert Gauged(s1);
        DispatchGauged(s1, |before.spans|, KeyOf(e), e, now);
        ConcludeGauged(Dispatch(s1, |before.spans|, KeyOf(e), e, now), |before.spans|, KeyOf(e), e, now);
      case Tick(order, now) =>
        ExpirePendingGauged(before, 0, now);
        ExpireFlowsGauged(ExpirePending(before, 0, now), order, now);
    }
  }
}
