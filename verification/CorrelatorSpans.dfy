/** What becomes of every span: its names, its duration and its tags, told from its event and its history. */
module CorrelatorSpans {
  import opened Options
  import opened CorrelatorModel
  import opened CorrelatorAccounting
  import opened CorrelatorEmission
  import opened CorrelatorReference
  import opened CorrelatorTimes
  import opened CorrelatorIdle

  // ---------- what one event writes into spans ----------

  function With(data: SpanData, name: string, tag: Tag): SpanData { data.(tags := data.tags[name := tag]) }

  function Own(data: SpanData): SpanData {
    if data.traceId != "" then data else data.(traceId := data.derivedId, spanId := data.freshId)
  }

  function Child(data: SpanData, req: SpanData, elapsed: int): SpanData {
    data.(parentSpanId := req.spanId, traceId := req.traceId, spanId := data.freshId, durationNs := elapsed)
  }

  /** The request that a receive takes. */
  predicate Takes(e: Event, data: SpanData, queue: seq<Request>) {
    e.eventType == EVENT_RECV_FROM && queue != [] && (IsResponse(e) || data.traceId == "")
  }

  /** What the event's own span becomes. */
  function NewSpan(s: State, f: Flow, e: Event, data: SpanData, now: int): SpanData {
    if IsRequest(e) then With(Own(data), "request_seq", Number(f.seqCounter + 1))
    else if Takes(e, data, f.queue) then
      var req := f.queue[0];
      var child := Child(data, Deref(s.spans, req.span), now - req.sendTime);
      if IsResponse(e) then With(With(child, "request_seq", Number(req.seqNo)), "matched", Flag) else child
    else if IsResponse(e) then With(Own(data), "orphan_response", Flag)
    else data
  }

  /** What an older span becomes. */
  function OldSpan(s: State, f: Flow, e: Event, data: SpanData, now: int, j: nat): SpanData
    requires j < |s.spans|
  {
    if Takes(e, data, f.queue) && j == f.queue[0].span then
      var timed := s.spans[j].(durationNs := now - f.queue[0].sendTime);
      if IsResponse(e) then With(timed, "response_seq", Number(f.queue[0].seqNo)) else timed
    else if e.eventType == EVENT_CLOSE && s.cfg.handlerSet && j in SpansOf(f.queue) then With(s.spans[j], "connection_closed", Flag)
    else s.spans[j]
  }

  lemma {:induction false} EmitAllSpans(s: State, ids: seq<nat>, tag: string, onlyIfHandled: bool, j: nat)
    requires j < |s.spans|
    ensures EmitAll(s, ids, tag, onlyIfHandled).spans[j] ==
            if j in ids && (s.cfg.handlerSet || !onlyIfHandled) then With(s.spans[j], tag, Flag) else s.spans[j]
    decreases |ids|
  {
    if ids != [] {
      var s1 := if onlyIfHandled && !s.cfg.handlerSet then s else SetSpan(s, ids[0], Deref(s.spans, ids[0]).Tagged(tag, Flag));
      EmitAllSpans(Emit(s1, ids[0]), ids[1..], tag, onlyIfHandled, j);
      assert s.spans[j].tags[tag := Flag][tag := Flag] == s.spans[j].tags[tag := Flag];
      assert j in ids <==> j == ids[0] || j in ids[1..];
    }
  }

  lemma SendSpans(s: State, i: nat, key: string, isRequest: bool, now: int)
    requires i < |s.spans|
    ensures var s' := HandleSend(s, i, key, isRequest, now);
            && (forall j :: 0 <= j < |s.spans| && j != i ==> s'.spans[j] == s.spans[j])
            && s'.spans[i] == if isRequest then With(Own(s.spans[i]), "request_seq", Number(FlowOf(s.conns, key).seqCounter + 1))
                              else s.spans[i]
  {
    GetOrCreateIs(s, key);
    var s1 := TouchSend(GetOrCreateFlow(s, key), key, now);
    if isRequest {
      var s2 := SetSpan(s1, i, Deref(s1.spans, i).Named());
      EvictIs(s2, key);
      EvictSpans(s2, key);
    }
  }

  lemma EvictSpans(s: State, key: string)
    requires key in s.conns
    ensures EvictIfFull(s, key).spans == s.spans
  {
  }

  lemma AnswerSpans(s: State, i: nat, key: string, now: int, late: bool)
    requires i < |s.spans| && key in s.conns && s.conns[key].queue != [] && s.conns[key].queue[0].span < |s.spans|
    requires s.conns[key].queue[0].span != i
    ensures var s', req := MatchFront(s, i, key, now, late), s.conns[key].queue[0];
            var elapsed := now - req.sendTime;
            && (forall j :: 0 <= j < |s.spans| && j != i && j != req.span ==> s'.spans[j] == s.spans[j])
            && s'.spans[i] == (var child := Child(s.spans[i], s.spans[req.span], elapsed);
                               if late then child else With(child, "request_seq", Number(req.seqNo)))
            && s'.spans[req.span] == (var timed := s.spans[req.span].(durationNs := elapsed);
                                      if late then timed else With(timed, "response_seq", Number(req.seqNo)))
  {
  }

  lemma FrontIs(s: State, key: string, i: nat)
    requires Sound(s) && Free(s, i) && key in s.conns && s.conns[key].queue != []
    ensures var req := s.conns[key].queue[0].span; req < |s.spans| && req != i && s.spans[req].traceId != ""
  {
    var req := s.conns[key].queue[0].span;
    FrontWeighs(s, key, req);
    assert Placed(s, req);
  }

  lemma RecvSpans(s: State, i: nat, key: string, isResponse: bool, now: int)
    requires Sound(s) && Free(s, i)
    ensures var s', f := HandleRecv(s, i, key, isResponse, now), FlowOf(s.conns, key);
            if !isResponse then s'.spans == s.spans
            else if f.queue == [] then
              s'.spans[i] == With(Own(s.spans[i]), "orphan_response", Flag) && forall j :: 0 <= j < |s.spans| && j != i ==> s'.spans[j] == s.spans[j]
            else
              var req := f.queue[0]; var elapsed := now - req.sendTime;
              && req.span < |s.spans| && req.span != i
              && s'.spans[i] == With(With(Child(s.spans[i], s.spans[req.span], elapsed), "request_seq", Number(req.seqNo)), "matched", Flag)
              && s'.spans[req.span] == With(s.spans[req.span].(durationNs := elapsed), "response_seq", Number(req.seqNo))
              && forall j :: 0 <= j < |s.spans| && j != i && j != req.span ==> s'.spans[j] == s.spans[j]
  {
    hide MatchFront, BookOf, Placed, Linked;
    GetOrCreateIs(s, key);
    var s1 := TouchRecv(GetOrCreateFlow(s, key), key, now);
    assert s1.spans == s.spans && s1.conns[key].queue == FlowOf(s.conns, key).queue;
    if isResponse && s1.conns[key].queue != [] {
      FrontIs(s, key, i);
      AnswerSpans(s1, i, key, now, false);
    }
  }

  lemma TrySpans(s: State, i: nat, key: string, e: Event, now: int)
    requires i < |s.spans|
    requires var q := FlowOf(s.conns, key).queue; q != [] ==> q[0].span < |s.spans| && q[0].span != i
    ensures var s', f := TryCorrelate(s, i, key, e, now), FlowOf(s.conns, key);
            if e.eventType != EVENT_RECV_FROM || f.queue == [] then s'.spans == s.spans
            else
              var req := f.queue[0]; var elapsed := now - req.sendTime;
              && s'.spans[i] == Child(s.spans[i], s.spans[req.span], elapsed)
              && s'.spans[req.span] == s.spans[req.span].(durationNs := elapsed)
              && forall j :: 0 <= j < |s.spans| && j != i && j != req.span ==> s'.spans[j] == s.spans[j]
  {
    hide MatchFront, WithoutSpan;
    GetOrCreateIs(s, key);
    var s1 := GetOrCreateFlow(s, key);
    if e.eventType == EVENT_RECV_FROM && s1.conns[key].queue != [] {
      AnswerSpans(s1, i, key, now, true);
    }
  }

  lemma DropSpans(s: State, key: string, closing: bool, j: nat)
    requires key in s.conns && j < |s.spans|
    ensures DropFlow(s, key, closing).spans[j] ==
            if j in SpansOf(s.conns[key].queue) && (s.cfg.handlerSet || !closing)
            then With(s.spans[j], if closing then "connection_closed" else "connection_timeout", Flag) else s.spans[j]
  {
    hide EmitAll, SpansOf;
    EmitAllSpans(s, SpansOf(s.conns[key].queue), if closing then "connection_closed" else "connection_timeout", closing, j);
  }

  /** After the handler the spans are what NewSpan and OldSpan say, but for a late match. */
  lemma DispatchSpans(s: State, i: nat, key: string, e: Event, data: SpanData, now: int)
    requires Sound(s) && Free(s, i) && i < |s.spans| && s.spans[i] == data
    ensures var s', f := Dispatch(s, i, key, e, now), FlowOf(s.conns, key);
            && s'.spans[i] == (if Unnamed(e, data) then data else NewSpan(s, f, e, data, now))
            && forall j :: 0 <= j < |s.spans| && j != i ==>
                 s'.spans[j] == if Unnamed(e, data) && e.eventType == EVENT_RECV_FROM then s.spans[j] else OldSpan(s, f, e, data, now, j)
  {
    hide HandleSend, HandleRecv, DropFlow, IsRequestPayload, IsResponsePayload, Sound, Free, With, Own, Child, SpansOf;
    var f := FlowOf(s.conns, key);
    if e.eventType == EVENT_SEND_TO {
      SendSpans(s, i, key, IsRequestPayload(e), now);
    } else if e.eventType == EVENT_RECV_FROM {
      RecvSpans(s, i, key, IsResponsePayload(e), now);
    } else if e.eventType == EVENT_CLOSE {
      CloseSpans(s, i, key);
    }
  }

  lemma CloseSpans(s: State, i: nat, key: string)
    requires Sound(s) && Free(s, i)
    ensures var s', f := HandleClose(s, key), FlowOf(s.conns, key);
            && s'.spans[i] == s.spans[i]
            && forall j :: 0 <= j < |s.spans| && j != i ==>
                 s'.spans[j] == if s.cfg.handlerSet && j in SpansOf(f.queue) then With(s.spans[j], "connection_closed", Flag) else s.spans[j]
  {
    hide DropFlow, With, Placed, Linked;
    if key in s.conns {
      FreeNotQueued(s, key, i);
      forall j | 0 <= j < |s.spans|
        ensures DropFlow(s, key, true).spans[j] ==
                if j in SpansOf(s.conns[key].queue) && s.cfg.handlerSet then With(s.spans[j], "connection_closed", Flag) else s.spans[j]
      {
        DropSpans(s, key, true, j);
      }
    }
  }

  lemma FreeNotQueued(s: State, key: string, i: nat)
    requires Free(s, i) && key in s.conns
    ensures i !in SpansOf(s.conns[key].queue)
  {
    QueuedAt(s.conns, key, Only(i));
    MemberWeighs(SpansOf(s.conns[key].queue), i);
  }

  /** The handler of an event whose span stays unnamed leaves the front request in place. */
  lemma FrontStays(s: State, i: nat, key: string, e: Event, data: SpanData, now: int)
    requires Unnamed(e, data) && e.eventType == EVENT_RECV_FROM
    ensures FlowOf(Dispatch(s, i, key, e, now).conns, key).queue == FlowOf(s.conns, key).queue
  {
    hide HandleRecv, IsResponsePayload;
    RecvIs(s, i, key, false, now);
  }

  /** What an event does to the spans. */
  lemma EventSpans(s: State, i: nat, key: string, e: Event, data: SpanData, now: int)
    requires Sound(s) && Free(s, i) && i < |s.spans| && s.spans[i] == data
    ensures var s', f := Conclude(Dispatch(s, i, key, e, now), i, key, e, now), FlowOf(s.conns, key);
            && s'.spans[i] == NewSpan(s, f, e, data, now)
            && forall j :: 0 <= j < |s.spans| && j != i ==> s'.spans[j] == OldSpan(s, f, e, data, now, j)
  {
    hide Dispatch, TryCorrelate, IsRequestPayload, IsResponsePayload, Sound, Free, With, Own, Child, SpansOf;
    var f, s1 := FlowOf(s.conns, key), Dispatch(s, i, key, e, now);
    DispatchSpans(s, i, key, e, data, now);
    UnnamedIff(s, i, key, e, data, now);
    if Unnamed(e, data) {
      if e.eventType == EVENT_RECV_FROM {
        FrontStays(s, i, key, e, data, now);
        if f.queue != [] {
          FrontIs(s, key, i);
        }
        TrySpans(s1.(pending := s1.pending + [Waiting(i, now)]), i, key, e, now);
      } else {
        OtherTry(s1.(pending := s1.pending + [Waiting(i, now)]), i, key, e, now);
      }
    }
  }

  lemma OtherTry(s: State, i: nat, key: string, e: Event, now: int)
    requires e.eventType != EVENT_RECV_FROM
    ensures TryCorrelate(s, i, key, e, now).spans == s.spans
  {
  }

  // ---------- what a tick writes into spans ----------

  /** Some entry of span i is too old. */
  predicate Overdue(pending: seq<Waiting>, i: nat, now: int, timeout: int) {
    exists p <- pending :: p.span == i && now - p.since > timeout
  }

  function Expired(data: SpanData): SpanData { With(Own(data), "timeout", Flag) }

  lemma ExpiredTwice(data: SpanData)
    ensures Expired(Expired(data)) == Expired(data)
  {
    assert data.tags["timeout" := Flag]["timeout" := Flag] == data.tags["timeout" := Flag];
  }

  lemma OverdueFirst(pending: seq<Waiting>, i: nat, now: int, timeout: int)
    requires pending != []
    ensures Overdue(pending, i, now, timeout) <==>
            (pending[0].span == i && now - pending[0].since > timeout) || Overdue(pending[1..], i, now, timeout)
  {
    assert pending == [pending[0]] + pending[1..];
  }

  lemma ExpireOneIs(s: State, j: nat, i: nat)
    requires j < |s.pending| && i < |s.spans|
    ensures var s' := ExpireOne(s, j);
            && s'.spans[i] == (if s.pending[j].span == i then Expired(s.spans[i]) else s.spans[i])
            && s'.pending[j..] == s.pending[j..][1..]
  {
  }

  lemma {:induction false} PendingSpans(s: State, j: nat, now: int, i: nat)
    requires j <= |s.pending| && i < |s.spans|
    ensures ExpirePending(s, j, now).spans[i] ==
            if Overdue(s.pending[j..], i, now, s.cfg.timeout) then Expired(s.spans[i]) else s.spans[i]
    decreases |s.pending| - j
  {
    hide Expired, Overdue, ExpireOne;
    if j < |s.pending| {
      OverdueFirst(s.pending[j..], i, now, s.cfg.timeout);
      assert s.pending[j..][1..] == s.pending[j + 1..];
      if now - s.pending[j].since > s.cfg.timeout {
        ExpireOneIs(s, j, i);
        ExpiredTwice(s.spans[i]);
        PendingSpans(ExpireOne(s, j), j, now, i);
      } else {
        PendingSpans(s, j + 1, now, i);
      }
    } else {
      NothingOverdue(i, now, s.cfg.timeout);
      assert s.pending[j..] == [];
    }
  }

  lemma NothingOverdue(i: nat, now: int, timeout: int)
    ensures !Overdue([], i, now, timeout)
  {
  }

  /** Span i is among the requests that these facts say were timed out. */
  predicate TimedOutIn(facts: seq<Fact>, i: nat) {
    exists f <- facts :: f.TimedOut? && i in f.reqs
  }

  lemma {:induction false} FlowSpans(s: State, order: seq<string>, now: int, i: nat) returns (facts: seq<Fact>)
    requires i < |s.spans|
    ensures ExpireFlows(s, order, now).hist == s.hist + facts && forall f <- facts :: f.TimedOut?
    ensures ExpireFlows(s, order, now).spans[i] ==
            if TimedOutIn(facts, i) then With(s.spans[i], "connection_timeout", Flag) else s.spans[i]
    decreases |order|
  {
    hide DropFlow, With, FlowExpired, SpansOf;
    if order == [] {
      facts := [];
      assert s.hist + [] == s.hist;
    } else if FlowExpired(s, order[0], now) {
      ExpiredThere(s, order[0], now);
      var s1 := DropFlow(s, order[0], false);
      DropIs(s, order[0], false);
      DropSpans(s, order[0], false, i);
      var rest := FlowSpans(s1, order[1..], now, i);
      var f := TimedOut(SpansOf(s.conns[order[0]].queue));
      facts := [f] + rest;
      assert s.hist + [f] + rest == s.hist + facts;
      TimedOutFirst(f, rest, i);
      WithTwice(s.spans[i], "connection_timeout");
    } else {
      facts := FlowSpans(s, order[1..], now, i);
    }
  }

  lemma ExpiredThere(s: State, key: string, now: int)
    requires FlowExpired(s, key, now)
    ensures key in s.conns
  {
  }

  lemma TimedOutFirst(f: Fact, rest: seq<Fact>, i: nat)
    requires f.TimedOut?
    ensures TimedOutIn([f] + rest, i) <==> i in f.reqs || TimedOutIn(rest, i)
    ensures (forall g <- rest :: g.TimedOut?) ==> forall g <- [f] + rest :: g.TimedOut?
  {
    assert f in [f] + rest;
    assert forall g :: g in [f] + rest <==> g == f || g in rest;
  }

  lemma WithTwice(data: SpanData, name: string)
    ensures With(With(data, name, Flag), name, Flag) == With(data, name, Flag)
  {
    assert data.tags[name := Flag][name := Flag] == data.tags[name := Flag];
  }

  // ---------- what a history says of a span ----------

  predicate Answered(h: seq<Fact>, i: nat) { exists f <- h :: IsMatch(f) && f.req == i }
  predicate AnsweredHere(h: seq<Fact>, i: nat) { exists f <- h :: f.MatchedInRecv? && f.req == i }
  predicate Responded(h: seq<Fact>, i: nat) { exists f <- h :: IsMatch(f) && f.resp == i }
  predicate RespondedHere(h: seq<Fact>, i: nat) { exists f <- h :: f.MatchedInRecv? && f.resp == i }
  predicate ClosedIn(h: seq<Fact>, i: nat) { exists f <- h :: f.Closed? && i in f.reqs }

  lemma Later(h: seq<Fact>, facts: seq<Fact>, i: nat)
    ensures Answered(h + facts, i) <==> Answered(h, i) || Answered(facts, i)
    ensures AnsweredHere(h + facts, i) <==> AnsweredHere(h, i) || AnsweredHere(facts, i)
    ensures Responded(h + facts, i) <==> Responded(h, i) || Responded(facts, i)
    ensures RespondedHere(h + facts, i) <==> RespondedHere(h, i) || RespondedHere(facts, i)
    ensures ClosedIn(h + facts, i) <==> ClosedIn(h, i) || ClosedIn(facts, i)
    ensures TimedOutIn(h + facts, i) <==> TimedOutIn(h, i) || TimedOutIn(facts, i)
  {
    assert forall f :: f in h + facts <==> f in h || f in facts;
  }

  lemma NothingSaid(i: nat)
    ensures !Answered([], i) && !AnsweredHere([], i) && !Responded([], i) && !RespondedHere([], i) && !ClosedIn([], i) && !TimedOutIn([], i)
  {
  }

  lemma OneSaid(f: Fact, i: nat)
    ensures Answered([f], i) <==> IsMatch(f) && f.req == i
    ensures AnsweredHere([f], i) <==> f.MatchedInRecv? && f.req == i
    ensures Responded([f], i) <==> IsMatch(f) && f.resp == i
    ensures RespondedHere([f], i) <==> f.MatchedInRecv? && f.resp == i
    ensures ClosedIn([f], i) <==> f.Closed? && i in f.reqs
    ensures TimedOutIn([f], i) <==> f.TimedOut? && i in f.reqs
  {
    assert f in [f];
  }

  /** What the facts of an event say, in terms of the queue of its connection. */
  lemma EventFactsSay(cfg: Config, c: Option<Conn>, inputs: seq<Input>, e: Event, data: SpanData, now: int, j: nat)
    ensures var i, queue := Arrivals(inputs), Opened(c).queue;
            var facts := HandledFacts(cfg, c, inputs, e, now) + LateFacts(Handled(cfg, c, e, i, now), inputs, e, data, now);
            var takes := e.eventType == EVENT_RECV_FROM && queue != [] && (IsResponse(e) || data.traceId == "");
            && (Answered(facts, j) <==> takes && queue[0] == j)
            && (AnsweredHere(facts, j) <==> takes && IsResponse(e) && queue[0] == j)
            && (Responded(facts, j) <==> takes && j == i) && (RespondedHere(facts, j) <==> takes && IsResponse(e) && j == i)
            && (ClosedIn(facts, j) <==> e.eventType == EVENT_CLOSE && j in queue) && !TimedOutIn(facts, j)
  {
    hide IsRequestPayload, IsResponsePayload, ArrivedAt, Arrivals;
    hide Answered, AnsweredHere, Responded, RespondedHere, ClosedIn, TimedOutIn;
    EventFactsAre(cfg, c, inputs, e, data, now);
    var facts := HandledFacts(cfg, c, inputs, e, now) + LateFacts(Handled(cfg, c, e, Arrivals(inputs), now), inputs, e, data, now);
    if facts == [] {
      NothingSaid(j);
    } else {
      assert facts == [facts[0]];
      OneSaid(facts[0], j);
    }
  }

  // ---------- who waits after an event ----------

  lemma {:induction false} WithoutLast(pending: seq<Waiting>, i: nat, now: int)
    requires i !in WaitingSpans(pending)
    ensures WithoutSpan(pending + [Waiting(i, now)], i) == pending
  {
    var all := pending + [Waiting(i, now)];
    if pending == [] {
      assert all[1..] == [];
    } else {
      assert WaitingSpans(pending)[0] == pending[0].span;
      assert WaitingSpans(pending)[1..] == WaitingSpans(pending[1..]);
      assert all[1..] == pending[1..] + [Waiting(i, now)] && all[0] == pending[0];
      WithoutLast(pending[1..], i, now);
    }
  }

  lemma PushedSpans(pending: seq<Waiting>, i: nat, now: int)
    ensures WaitingSpans(pending + [Waiting(i, now)]) == WaitingSpans(pending) + [i]
  {
  }

  /** An event's own span waits afterwards if it is unnamed and found no request; the others as before. */
  lemma EventWaits(s: State, i: nat, key: string, e: Event, data: SpanData, now: int, j: nat)
    requires Sound(s) && Free(s, i) && i < |s.spans| && s.spans[i] == data
    ensures var s' := Conclude(Dispatch(s, i, key, e, now), i, key, e, now);
            j in WaitingSpans(s'.pending) <==>
            if j == i then Unnamed(e, data) && !Takes(e, data, FlowOf(s.conns, key).queue) else j in WaitingSpans(s.pending)
  {
    hide Dispatch, TryCorrelate, IsRequestPayload, IsResponsePayload, Sound, Free, WaitingSpans;
    var s1 := Dispatch(s, i, key, e, now);
    UnnamedIff(s, i, key, e, data, now);
    DispatchPending(s, i, key, e, now);
    NotYetWaiting(s, i);
    if Unnamed(e, data) {
      var s2 := s1.(pending := s1.pending + [Waiting(i, now)]);
      PushedSpans(s.pending, i, now);
      if e.eventType == EVENT_RECV_FROM {
        FrontStays(s, i, key, e, data, now);
        TakenWaits(s, s2, i, key, e, now, j);
      } else {
        OtherTryWaits(s2, i, key, e, now);
      }
    }
  }

  lemma NotYetWaiting(s: State, i: nat)
    requires Free(s, i)
    ensures i !in WaitingSpans(s.pending)
  {
    MemberWeighs(WaitingSpans(s.pending), i);
  }

  lemma OtherTryWaits(s: State, i: nat, key: string, e: Event, now: int)
    requires e.eventType != EVENT_RECV_FROM
    ensures TryCorrelate(s, i, key, e, now).pending == s.pending
  {
  }

  lemma TryPendingIs(s: State, i: nat, key: string, e: Event, now: int)
    requires e.eventType == EVENT_RECV_FROM
    ensures var q, p := FlowOf(s.conns, key).queue, TryCorrelate(s, i, key, e, now).pending;
            p == if q == [] then s.pending else WithoutSpan(WithoutSpan(s.pending, q[0].span), i)
  {
    hide Answer, WithoutSpan;
  }

  lemma TakenWaits(s: State, s2: State, i: nat, key: string, e: Event, now: int, j: nat)
    requires Sound(s) && Free(s, i) && e.eventType == EVENT_RECV_FROM && s2.pending == s.pending + [Waiting(i, now)]
    requires FlowOf(s2.conns, key).queue == FlowOf(s.conns, key).queue
    ensures j in WaitingSpans(TryCorrelate(s2, i, key, e, now).pending) <==>
            if j == i then FlowOf(s.conns, key).queue == [] else j in WaitingSpans(s.pending)
  {
    hide TryCorrelate, WithoutSpan, Sound, Free;
    var queue := FlowOf(s.conns, key).queue;
    TryPendingIs(s2, i, key, e, now);
    PushedSpans(s.pending, i, now);
    NotYetWaiting(s, i);
    if queue != [] {
      var req := queue[0].span;
      FrontIs(s, key, i);
      FrontWaitsNot(s, key);
      WithoutNot(s.pending, req, i, now);
      WithoutLast(s.pending, i, now);
    }
  }

  lemma FrontWaitsNot(s: State, key: string)
    requires Sound(s) && key in s.conns && s.conns[key].queue != []
    ensures s.conns[key].queue[0].span !in WaitingSpans(s.pending)
  {
    var req := s.conns[key].queue[0].span;
    FrontWeighs(s, key, req);
    assert Placed(s, req);
    MemberWeighs(WaitingSpans(s.pending), req);
  }

  lemma WithoutNot(pending: seq<Waiting>, req: nat, i: nat, now: int)
    requires req !in WaitingSpans(pending) && req != i
    ensures WithoutSpan(pending + [Waiting(i, now)], req) == pending + [Waiting(i, now)]
  {
    PushedSpans(pending, i, now);
    NotWaiting(pending + [Waiting(i, now)], req);
  }

  // ---------- what a span says ----------

  /** What happened to a span. here: in handleRecv; closed: tagged by a close. */
  datatype Status = Status(answered: bool, answeredHere: bool, responded: bool, respondedHere: bool,
                           closed: bool, timedOut: bool, waits: bool)

  function StatusOf(s: State, i: nat): Status {
    Status(Answered(s.hist, i), AnsweredHere(s.hist, i), Responded(s.hist, i), RespondedHere(s.hist, i),
           s.cfg.handlerSet && ClosedIn(s.hist, i), TimedOutIn(s.hist, i), i in WaitingSpans(s.pending))
  }

  /** The tags that the correlator gives a span. */
  predicate Earned(e: Event, d: SpanData, st: Status, name: string) {
    || (name == "request_seq" && (IsRequest(e) || st.respondedHere))
    || (name == "response_seq" && st.answeredHere)
    || (name == "matched" && st.respondedHere)
    || (name == "orphan_response" && IsResponse(e) && !st.respondedHere)
    || (name == "connection_closed" && st.closed)
    || (name == "connection_timeout" && st.timedOut)
    || (name == "timeout" && Unnamed(e, d) && !st.waits && !st.responded)
  }

  predicate TagFits(x: SpanData, d: SpanData, earned: bool, name: string) {
    if earned then name in x.tags && (Plain(name) ==> x.tags[name] == Flag)
    else (name in x.tags <==> name in d.tags) && (name in d.tags ==> x.tags[name] == d.tags[name])
  }

  /** A response is named when it is matched; a span that waits is not named yet; any other keeps its names, or gets
      its own. */
  predicate NamesFit(x: SpanData, d: SpanData, e: Event, st: Status) {
    && x.derivedId == d.derivedId && x.freshId == d.freshId
    && (st.waits ==> Unnamed(e, d) && !st.responded && x.traceId == "")
    && if st.responded then x.spanId == d.freshId
       else
         && x.parentSpanId == d.parentSpanId
         && if st.waits || d.traceId != "" then x.traceId == d.traceId && x.spanId == d.spanId
            else x.traceId == d.derivedId && x.spanId == d.freshId
  }

  ghost predicate Fits(x: SpanData, d: SpanData, e: Event, st: Status) {
    && NamesFit(x, d, e, st)
    && (!st.responded && !st.answered ==> x.durationNs == d.durationNs)
    && forall name :: TagFits(x, d, Earned(e, d, st, name), name)
  }

  lemma Names()
    ensures var names := ["request_seq", "response_seq", "matched", "orphan_response", "connection_closed", "connection_timeout", "timeout"];
            forall i, j :: 0 <= i < j < 7 ==> names[i] != names[j]
  {
    assert |"request_seq"| == 11 && |"response_seq"| == 12 && |"matched"| == 7 && |"orphan_response"| == 15;
    assert |"connection_closed"| == 17 && |"connection_timeout"| == 18 && |"timeout"| == 7 && "matched"[0] != "timeout"[0];
  }

  /** One more tag. */
  lemma TagAdded(x: SpanData, d: SpanData, e: Event, st: Status, st': Status, added: string, tag: Tag)
    requires forall name :: TagFits(x, d, Earned(e, d, st, name), name)
    requires forall name :: Earned(e, d, st', name) <==> Earned(e, d, st, name) || name == added
    requires Plain(added) ==> tag == Flag
    ensures forall name :: TagFits(With(x, added, tag), d, Earned(e, d, st', name), name)
  {
    hide Earned;
    forall name
      ensures TagFits(With(x, added, tag), d, Earned(e, d, st', name), name)
    {
      assert TagFits(x, d, Earned(e, d, st, name), name);
    }
  }

  lemma AnsweredFits(x: SpanData, d: SpanData, e: Event, st: Status, elapsed: int, here: bool, seqNo: nat)
    requires Fits(x, d, e, st)
    ensures var timed := x.(durationNs := elapsed);
            Fits(if here then With(timed, "response_seq", Number(seqNo)) else timed, d, e,
                 st.(answered := true, answeredHere := st.answeredHere || here))
  {
    hide IsRequestPayload, IsResponsePayload;
    Names();
    var timed, st' := x.(durationNs := elapsed), st.(answered := true, answeredHere := st.answeredHere || here);
    forall name
      ensures TagFits(timed, d, Earned(e, d, st, name), name)
    {
      assert TagFits(x, d, Earned(e, d, st, name), name);
    }
    if here {
      TagAdded(timed, d, e, st, st', "response_seq", Number(seqNo));
    } else {
      forall name
        ensures TagFits(timed, d, Earned(e, d, st', name), name)
      {
        assert Earned(e, d, st', name) <==> Earned(e, d, st, name);
      }
    }
  }

  lemma ClosedFits(x: SpanData, d: SpanData, e: Event, st: Status)
    requires Fits(x, d, e, st)
    ensures Fits(With(x, "connection_closed", Flag), d, e, st.(closed := true))
  {
    hide IsRequestPayload, IsResponsePayload;
    Names();
    TagAdded(x, d, e, st, st.(closed := true), "connection_closed", Flag);
  }

  lemma TimedOutFits(x: SpanData, d: SpanData, e: Event, st: Status)
    requires Fits(x, d, e, st)
    ensures Fits(With(x, "connection_timeout", Flag), d, e, st.(timedOut := true))
  {
    hide IsRequestPayload, IsResponsePayload;
    Names();
    TagAdded(x, d, e, st, st.(timedOut := true), "connection_timeout", Flag);
  }

  lemma ExpiredFits(x: SpanData, d: SpanData, e: Event, st: Status)
    requires Fits(x, d, e, st) && st.waits
    ensures Fits(Expired(x), d, e, st.(waits := false))
  {
    hide IsRequestPayload, IsResponsePayload;
    Names();
    forall name
      ensures TagFits(Own(x), d, Earned(e, d, st, name), name)
    {
      assert TagFits(x, d, Earned(e, d, st, name), name);
    }
    TagAdded(Own(x), d, e, st, st.(waits := false), "timeout", Flag);
  }

  const FRESH := Status(false, false, false, false, false, false, false)

  lemma NewFits(s: State, f: Flow, e: Event, d: SpanData, now: int)
    ensures var takes := Takes(e, d, f.queue); var here := takes && IsResponse(e);
            Fits(NewSpan(s, f, e, d, now), d, e,
                 FRESH.(responded := takes, respondedHere := here, waits := Unnamed(e, d) && !takes))
  {
    hide IsRequestPayload, IsResponsePayload;
    Names();
    var takes := Takes(e, d, f.queue);
    var here := takes && IsResponse(e);
    var x, st := NewSpan(s, f, e, d, now), FRESH.(responded := takes, respondedHere := here, waits := Unnamed(e, d) && !takes);
    forall name
      ensures TagFits(x, d, Earned(e, d, st, name), name)
    {
    }
  }

  // ---------- every span of every run ----------

  ghost predicate AllFit(s: State, inputs: seq<Input>) {
    && |s.spans| == Arrivals(inputs)
    && forall i :: 0 <= i < |s.spans| ==> Fits(s.spans[i], DataOf(inputs, i), EventOf(inputs, i), StatusOf(s, i))
  }

  lemma DataKept(inputs: seq<Input>, input: Input, i: nat)
    requires i < Arrivals(inputs)
    ensures i < Arrivals(inputs + [input]) && DataOf(inputs + [input], i) == DataOf(inputs, i) && EventOf(inputs + [input], i) == EventOf(inputs, i)
  {
    assert (inputs + [input])[..|inputs|] == inputs;
  }

  lemma DataNew(inputs: seq<Input>, e: Event, data: SpanData, now: int)
    ensures var all, i := inputs + [Arrive(e, data, now)], Arrivals(inputs);
            Arrivals(all) == i + 1 && DataOf(all, i) == data && EventOf(all, i) == e
  {
    assert (inputs + [Arrive(e, data, now)])[..|inputs|] == inputs;
  }

  /** What an event's facts make of a span's status. */
  lemma StatusAfter(s: State, s': State, facts: seq<Fact>, j: nat)
    requires s'.hist == s.hist + facts && s'.cfg == s.cfg
    ensures var st, st' := StatusOf(s, j), StatusOf(s', j);
            && st'.answered == (st.answered || Answered(facts, j)) && st'.answeredHere == (st.answeredHere || AnsweredHere(facts, j))
            && st'.responded == (st.responded || Responded(facts, j)) && st'.respondedHere == (st.respondedHere || RespondedHere(facts, j))
            && st'.closed == (st.closed || (s.cfg.handlerSet && ClosedIn(facts, j)))
            && st'.timedOut == (st.timedOut || TimedOutIn(facts, j)) && st'.waits == (j in WaitingSpans(s'.pending))
  {
    hide Answered, AnsweredHere, Responded, RespondedHere, ClosedIn, TimedOutIn, WaitingSpans;
    Later(s.hist, facts, j);
  }

  /** An older span after an event. */
  lemma OldFits(s: State, f: Flow, queue: seq<nat>, e: Event, data: SpanData, now: int, j: nat, d: SpanData, ej: Event, st: Status, st': Status)
    requires j < |s.spans| && SpansOf(f.queue) == queue && Fits(s.spans[j], d, ej, st)
    requires var takes := Takes(e, data, f.queue);
             && st'.answered == (st.answered || (takes && queue[0] == j))
             && st'.answeredHere == (st.answeredHere || (takes && IsResponse(e) && queue[0] == j))
             && st'.closed == (st.closed || (s.cfg.handlerSet && e.eventType == EVENT_CLOSE && j in queue))
             && st' == st.(answered := st'.answered, answeredHere := st'.answeredHere, closed := st'.closed)
    ensures Fits(OldSpan(s, f, e, data, now, j), d, ej, st')
  {
    hide Fits, IsRequestPayload, IsResponsePayload, With;
    assert f.queue != [] ==> queue[0] == f.queue[0].span;
    if Takes(e, data, f.queue) && j == f.queue[0].span {
      AnsweredFits(s.spans[j], d, ej, st, now - f.queue[0].sendTime, IsResponse(e), f.queue[0].seqNo);
    } else if e.eventType == EVENT_CLOSE && s.cfg.handlerSet && j in queue {
      ClosedFits(s.spans[j], d, ej, st);
    }
  }

  /** No fact speaks of a span that is not there yet. */
  lemma {:induction false} NotYet(cfg: Config, inputs: seq<Input>, i: nat)
    requires i >= Arrivals(inputs)
    ensures var h := Run(cfg, inputs).hist;
            !Answered(h, i) && !AnsweredHere(h, i) && !Responded(h, i) && !RespondedHere(h, i) && !ClosedIn(h, i) && !TimedOutIn(h, i)
  {
    hide Run;
    RunSound(cfg, inputs);
    OneSpanPerArrival(cfg, inputs);
    var s := Run(cfg, inputs);
    forall f | f in s.hist
      ensures i !in Leaving(f) && i !in Responding(f)
    {
      var k :| 0 <= k < |s.hist| && s.hist[k] == f;
      assert Placed(s, i);
      FactWeighs(s.hist, Leaving, i);
      FactWeighs(s.hist, Responding, i);
    }
  }

  lemma {:induction false} EventFits(cfg: Config, before: seq<Input>, e: Event, data: SpanData, now: int)
    requires AllFit(Run(cfg, before), before)
    ensures AllFit(ProcessEvent(Run(cfg, before), e, data, now), before + [Arrive(e, data, now)])
  {
    hide Run, Dispatch, Conclude, Fits, KeyOf, HandledFacts, LateFacts, Sound, Free, OldSpan, NewSpan, StatusOf, Connection, Handled,
      IsRequestPayload, IsResponsePayload, WaitingSpans, Same, SpansOf;
    var s, key, i, all := Run(cfg, before), KeyOf(e), Arrivals(before), before + [Arrive(e, data, now)];
    var s1, f, c := Arrived(s, data), FlowOf(s.conns, key), Connection(cfg, before, key);
    var s' := ProcessEvent(s, e, data, now);
    RunSound(cfg, before);
    ArrivedSound(s, data);
    RunFollows(cfg, before);
    AgreeOpened(s.conns, key, c, before);
    SpansOfFlow(f, Opened(c), before);
    EventSpans(s1, i, key, e, data, now);
    EventAgrees(cfg, before, e, data, now);
    DataNew(before, e, data, now);
    var facts := HandledFacts(cfg, c, before, e, now) + LateFacts(Handled(cfg, c, e, i, now), before, e, data, now);
    forall j | 0 <= j < |s'.spans|
      ensures Fits(s'.spans[j], DataOf(all, j), EventOf(all, j), StatusOf(s', j))
    {
      EventFactsSay(cfg, c, before, e, data, now, j);
      EventWaits(s1, i, key, e, data, now, j);
      StatusAfter(s, s', facts, j);
      StatusWaits(s, j);
      TakesIs(e, data, f.queue, Opened(c).queue);
      if j < i {
        DataKept(before, Arrive(e, data, now), j);
        SameBefore(s, s1, f, e, data, now, j);
        OldFits(s, f, Opened(c).queue, e, data, now, j, DataOf(before, j), EventOf(before, j), StatusOf(s, j), StatusOf(s', j));
      } else {
        NotYet(cfg, before, i);
        NewFits(s1, f, e, data, now);
        FreshStatus(s, i);
        AgreeQueueOld(s.conns, key, c, before);
        assert i !in Opened(c).queue && (Opened(c).queue != [] ==> Opened(c).queue[0] in Opened(c).queue);
      }
    }
  }

  lemma TakesIs(e: Event, data: SpanData, queue: seq<Request>, ids: seq<nat>)
    requires SpansOf(queue) == ids
    ensures queue == [] <==> ids == []
    ensures Takes(e, data, queue) <==> e.eventType == EVENT_RECV_FROM && ids != [] && (IsResponse(e) || data.traceId == "")
  {
    hide IsResponsePayload;
  }

  lemma StatusWaits(s: State, j: nat)
    ensures StatusOf(s, j).waits == (j in WaitingSpans(s.pending))
  {
  }

  lemma SameBefore(s: State, s1: State, f: Flow, e: Event, data: SpanData, now: int, j: nat)
    requires j < |s.spans| && s1.spans == s.spans + [data] && s1.cfg == s.cfg
    ensures OldSpan(s1, f, e, data, now, j) == OldSpan(s, f, e, data, now, j)
  {
    hide IsResponsePayload, SpansOf;
  }

  lemma FreshStatus(s: State, i: nat)
    requires !Answered(s.hist, i) && !AnsweredHere(s.hist, i) && !Responded(s.hist, i) && !RespondedHere(s.hist, i)
    requires !ClosedIn(s.hist, i) && !TimedOutIn(s.hist, i)
    ensures StatusOf(s, i) == FRESH.(waits := i in WaitingSpans(s.pending))
  {
  }

  /** What a tick makes of one span. */
  lemma TickSpan(cfg: Config, before: seq<Input>, order: seq<string>, now: int, i: nat) returns (facts: seq<Fact>)
    requires i < |Run(cfg, before).spans|
    ensures var s, s' := Run(cfg, before), CleanupExpired(Run(cfg, before), order, now);
            var waited, waits := i in WaitingSpans(s.pending), i in WaitingSpans(s'.pending);
            var x := if waited && !waits then Expired(s.spans[i]) else s.spans[i];
            && s'.hist == s.hist + facts && (forall f <- facts :: f.TimedOut?) && (waits ==> waited)
            && s'.spans[i] == if TimedOutIn(facts, i) then With(x, "connection_timeout", Flag) else x
  {
    hide Run, ExpirePending, ExpireFlows, Overdue, WaitingSpans, ArrivedAt, With, Expired;
    var s := Run(cfg, before);
    var s1 := ExpirePending(s, 0, now);
    RunTicked(cfg, before, order, now);
    PendingOnly(s, 0, now);
    RunWaits(cfg, before);
    PendingSpans(s, 0, now, i);
    assert s.pending[0..] == s.pending;
    OverdueIff(s.pending, before, i, now, cfg.timeout);
    TickWaitsIff(cfg, before, order, now, i);
    facts := FlowSpans(s1, order, now, i);
  }

  lemma TickSpanFits(s: State, s': State, facts: seq<Fact>, i: nat, d: SpanData, e: Event)
    requires i < |s.spans| == |s'.spans| && Fits(s.spans[i], d, e, StatusOf(s, i)) && s'.cfg == s.cfg
    requires var waited, waits := i in WaitingSpans(s.pending), i in WaitingSpans(s'.pending);
             var x := if waited && !waits then Expired(s.spans[i]) else s.spans[i];
             && s'.hist == s.hist + facts && (forall f <- facts :: f.TimedOut?) && (waits ==> waited)
             && s'.spans[i] == if TimedOutIn(facts, i) then With(x, "connection_timeout", Flag) else x
    ensures Fits(s'.spans[i], d, e, StatusOf(s', i))
  {
    hide Fits, WaitingSpans, With, Expired, StatusOf, TimedOutIn;
    var st := StatusOf(s, i);
    StatusWaits(s, i);
    StatusAfter(s, s', facts, i);
    OnlyTimedOut(facts, i);
    var waits := i in WaitingSpans(s'.pending);
    var x := if st.waits && !waits then Expired(s.spans[i]) else s.spans[i];
    if st.waits && !waits {
      ExpiredFits(s.spans[i], d, e, st);
    }
    assert Fits(x, d, e, st.(waits := waits));
    if TimedOutIn(facts, i) {
      TimedOutFits(x, d, e, st.(waits := waits));
    }
  }

  lemma {:induction false} TickFits(cfg: Config, before: seq<Input>, order: seq<string>, now: int)
    requires AllFit(Run(cfg, before), before)
    ensures AllFit(CleanupExpired(Run(cfg, before), order, now), before + [Tick(order, now)])
  {
    hide Run, CleanupExpired, Fits, StatusOf, WaitingSpans, With, Expired, TimedOutIn;
    var s, all := Run(cfg, before), before + [Tick(order, now)];
    var s' := CleanupExpired(s, order, now);
    assert all[..|before|] == before;
    forall i | 0 <= i < |s.spans|
      ensures Fits(s'.spans[i], DataOf(all, i), EventOf(all, i), StatusOf(s', i))
    {
      DataKept(before, Tick(order, now), i);
      var facts := TickSpan(cfg, before, order, now, i);
      TickSpanFits(s, s', facts, i, DataOf(before, i), EventOf(before, i));
    }
  }

  lemma RunTicked(cfg: Config, before: seq<Input>, order: seq<string>, now: int)
    ensures Run(cfg, before + [Tick(order, now)]) == CleanupExpired(Run(cfg, before), order, now)
  {
    hide CleanupExpired;
    assert (before + [Tick(order, now)])[..|before|] == before;
  }

  lemma OverdueIff(pending: seq<Waiting>, inputs: seq<Input>, i: nat, now: int, timeout: int)
    requires WaitsSince(pending, inputs)
    ensures Overdue(pending, i, now, timeout) <==> i in WaitingSpans(pending) && now - ArrivedAt(inputs, i) > timeout
  {
    hide ArrivedAt, Arrivals, WaitingSpans;
    WaitingIff(pending, i);
  }

  lemma OnlyTimedOut(facts: seq<Fact>, i: nat)
    requires forall f <- facts :: f.TimedOut?
    ensures !Answered(facts, i) && !AnsweredHere(facts, i) && !Responded(facts, i) && !RespondedHere(facts, i) && !ClosedIn(facts, i)
  {
  }

  /** In every run every span has the names, the duration and the tags that its event, its matches and the closes and
      timeouts of its connection give it, and no other. */
  lemma {:induction false} SpansAre(cfg: Config, inputs: seq<Input>)
    ensures AllFit(Run(cfg, inputs), inputs)
  {
    hide ProcessEvent, CleanupExpired, Fits, StatusOf;
    if inputs != [] {
      var n := |inputs| - 1;
      SpansAre(cfg, inputs[..n]);
      assert inputs[..n] + [inputs[n]] == inputs;
      match inputs[n]
      case Arrive(e, data, now) => EventFits(cfg, inputs[..n], e, data, now);
      case Tick(order, now) => TickFits(cfg, inputs[..n], order, now);
    }
  }

  // ---------- the numbers of requests ----------

  /** The how manieth request of its connection, since that was opened, span i is. */
  function NumberOf(cfg: Config, inputs: seq<Input>, i: nat): nat {
    if inputs == [] then 0
    else
      var n := |inputs| - 1;
      if inputs[n].Arrive? && i == Arrivals(inputs[..n]) then Opened(Connection(cfg, inputs[..n], KeyOf(inputs[n].e))).requests + 1
      else NumberOf(cfg, inputs[..n], i)
  }

  lemma NumberKept(cfg: Config, inputs: seq<Input>, input: Input, i: nat)
    requires i < Arrivals(inputs)
    ensures NumberOf(cfg, inputs + [input], i) == NumberOf(cfg, inputs, i)
  {
    assert (inputs + [input])[..|inputs|] == inputs;
  }

  lemma NumberNew(cfg: Config, inputs: seq<Input>, e: Event, data: SpanData, now: int)
    ensures NumberOf(cfg, inputs + [Arrive(e, data, now)], Arrivals(inputs)) == Opened(Connection(cfg, inputs, KeyOf(e))).requests + 1
  {
    assert (inputs + [Arrive(e, data, now)])[..|inputs|] == inputs;
  }

  /** The requests in flight are the last ones of their connection. */
  ghost predicate LastNumbers(cfg: Config, inputs: seq<Input>, c: Conn) {
    forall k :: 0 <= k < |c.queue| ==>
      c.queue[k] < Arrivals(inputs) && NumberOf(cfg, inputs, c.queue[k]) == c.requests - |c.queue| + 1 + k
  }

  lemma LastLater(cfg: Config, inputs: seq<Input>, input: Input, c: Conn)
    requires LastNumbers(cfg, inputs, c)
    ensures LastNumbers(cfg, inputs + [input], c)
  {
    hide Arrivals, NumberOf;
    forall k | 0 <= k < |c.queue|
      ensures c.queue[k] < Arrivals(inputs + [input]) && NumberOf(cfg, inputs + [input], c.queue[k]) == c.requests - |c.queue| + 1 + k
    {
      NumberKept(cfg, inputs, input, c.queue[k]);
      DataKept(inputs, input, c.queue[k]);
    }
  }

  lemma LastTail(cfg: Config, inputs: seq<Input>, c: Conn)
    requires LastNumbers(cfg, inputs, c)
    ensures LastNumbers(cfg, inputs, c.(queue := Tail(c.queue)))
  {
    hide NumberOf;
  }

  lemma LastJoined(cfg: Config, inputs: seq<Input>, c: Conn, i: nat)
    requires LastNumbers(cfg, inputs, c) && i < Arrivals(inputs) && NumberOf(cfg, inputs, i) == c.requests + 1
    ensures LastNumbers(cfg, inputs, c.(queue := c.queue + [i], requests := c.requests + 1))
  {
    hide NumberOf;
  }

  lemma LastSame(cfg: Config, inputs: seq<Input>, c: Conn, c': Conn)
    requires LastNumbers(cfg, inputs, c) && c'.queue == c.queue && c'.requests == c.requests
    ensures LastNumbers(cfg, inputs, c')
  {
  }

  lemma EventLast(cfg: Config, before: seq<Input>, e: Event, data: SpanData, now: int)
    requires LastNumbers(cfg, before, Opened(Connection(cfg, before, KeyOf(e))))
    ensures var c, all := Connection(cfg, before, KeyOf(e)), before + [Arrive(e, data, now)];
            LastNumbers(cfg, all, Opened(Concluded(Handled(cfg, c, e, Arrivals(before), now), e, data)))
  {
    hide LastNumbers, NumberOf, Connection, Arrivals, IsRequestPayload, IsResponsePayload, KeyOf;
    var o, all, i := Opened(Connection(cfg, before, KeyOf(e))), before + [Arrive(e, data, now)], Arrivals(before);
    LastLater(cfg, before, Arrive(e, data, now), o);
    NumberNew(cfg, before, e, data, now);
    DataNew(before, e, data, now);
    LastTail(cfg, all, o);
    NoneLast(cfg, all);
    var r := Opened(Concluded(Handled(cfg, Connection(cfg, before, KeyOf(e)), e, i, now), e, data));
    if IsRequest(e) {
      var room := o.(queue := Room(o.queue, cfg.maxInflight));
      LastJoined(cfg, all, room, i);
      LastSame(cfg, all, room.(queue := room.queue + [i], requests := o.requests + 1), r);
    } else if r.queue == o.queue && r.requests == o.requests {
      LastSame(cfg, all, o, r);
    } else if r.queue == Tail(o.queue) && r.requests == o.requests {
      LastSame(cfg, all, o.(queue := Tail(o.queue)), r);
    }
  }

  lemma NoneLast(cfg: Config, inputs: seq<Input>)
    ensures LastNumbers(cfg, inputs, OPENED)
  {
  }

  lemma {:induction false} QueueLast(cfg: Config, inputs: seq<Input>, key: string)
    ensures LastNumbers(cfg, inputs, Opened(Connection(cfg, inputs, key)))
  {
    hide LastNumbers, Handled, Concluded, Visited, KeyOf;
    NoneLast(cfg, inputs);
    if inputs != [] {
      var n := |inputs| - 1;
      var before := inputs[..n];
      assert before + [inputs[n]] == inputs;
      QueueLast(cfg, before, key);
      var c := Connection(cfg, before, key);
      LastLater(cfg, before, inputs[n], Opened(c));
      match inputs[n]
      case Arrive(e, data, now) =>
        if KeyOf(e) == key {
          EventLast(cfg, before, e, data, now);
        }
      case Tick(order, now) => VisitedIs(c, key, order, now, cfg.timeout);
    }
  }

  /** A request is tagged with its number, and once it is answered in handleRecv, with it again. */
  ghost predicate NumbersFit(s: State, cfg: Config, inputs: seq<Input>) {
    |s.spans| == Arrivals(inputs) &&
    forall i :: 0 <= i < |s.spans| && IsRequest(EventOf(inputs, i)) ==> NumberFits(s.spans[i], NumberOf(cfg, inputs, i), AnsweredHere(s.hist, i))
  }

  predicate NumberFits(x: SpanData, n: nat, answered: bool) {
    TagOf(x, "request_seq") == Some(Number(n)) && (answered ==> TagOf(x, "response_seq") == Some(Number(n)))
  }

  lemma NumberStays(x: SpanData, x': SpanData, n: nat, answered: bool, name: string)
    requires NumberFits(x, n, answered) && Plain(name)
    requires x'.tags == x.tags || x'.tags == x.tags[name := Flag]
    ensures NumberFits(x', n, answered)
  {
  }

  lemma OldNumber(s: State, f: Flow, e: Event, data: SpanData, now: int, j: nat, n: nat, answered: bool)
    requires j < |s.spans| && NumberFits(s.spans[j], n, answered)
    requires Takes(e, data, f.queue) && j == f.queue[0].span ==> f.queue[0].seqNo == n
    ensures NumberFits(OldSpan(s, f, e, data, now, j), n, answered || (Takes(e, data, f.queue) && IsResponse(e) && j == f.queue[0].span))
  {
    hide IsResponsePayload, SpansOf;
    Names();
    assert |"connection_closed"| == 17;
  }

  lemma FrontNumber(f: Flow, c: Conn, cfg: Config, inputs: seq<Input>)
    requires Same(f, c, inputs) && LastNumbers(cfg, inputs, c) && f.queue != []
    ensures f.queue[0].seqNo == NumberOf(cfg, inputs, f.queue[0].span) && c.queue != [] && c.queue[0] == f.queue[0].span
  {
    hide NumberOf;
    assert SpansOf(f.queue)[0] == f.queue[0].span;
  }

  lemma EventNumbers(cfg: Config, before: seq<Input>, e: Event, data: SpanData, now: int)
    requires NumbersFit(Run(cfg, before), cfg, before)
    ensures NumbersFit(ProcessEvent(Run(cfg, before), e, data, now), cfg, before + [Arrive(e, data, now)])
  {
    hide Run, Dispatch, Conclude, NumberFits, KeyOf, HandledFacts, LateFacts, Sound, Free, OldSpan, NewSpan, Connection, Handled,
      IsRequest, IsResponse, Same, SpansOf, LastNumbers, AnsweredHere, NumberOf, Agree;
    var s, key, i, all := Run(cfg, before), KeyOf(e), Arrivals(before), before + [Arrive(e, data, now)];
    var s1, f, c := Arrived(s, data), FlowOf(s.conns, key), Connection(cfg, before, key);
    var s' := ProcessEvent(s, e, data, now);
    RunSound(cfg, before);
    ArrivedSound(s, data);
    RunFollows(cfg, before);
    AgreeOpened(s.conns, key, c, before);
    SpansOfFlow(f, Opened(c), before);
    QueueLast(cfg, before, key);
    AgreeQueueOld(s.conns, key, c, before);
    if f.queue != [] {
      FrontNumber(f, Opened(c), cfg, before);
    }
    EventSpans(s1, i, key, e, data, now);
    EventAgrees(cfg, before, e, data, now);
    DataNew(before, e, data, now);
    var facts := HandledFacts(cfg, c, before, e, now) + LateFacts(Handled(cfg, c, e, i, now), before, e, data, now);
    forall j | 0 <= j < |s'.spans| && IsRequest(EventOf(all, j))
      ensures NumberFits(s'.spans[j], NumberOf(cfg, all, j), AnsweredHere(s'.hist, j))
    {
      AnsweredAfter(s.hist, cfg, c, f, before, e, data, now, j);
      if j < i {
        DataKept(before, Arrive(e, data, now), j);
        NumberKept(cfg, before, Arrive(e, data, now), j);
        SameBefore(s, s1, f, e, data, now, j);
        OldNumber(s, f, e, data, now, j, NumberOf(cfg, before, j), AnsweredHere(s.hist, j));
      } else {
        NotYet(cfg, before, i);
        NumberNew(cfg, before, e, data, now);
        NewNumber(s1, f, e, data, now);
        CountersAgree(f, Opened(c), before);
      }
    }
  }

  /** Which spans an event makes answered in handleRecv. */
  lemma AnsweredAfter(h: seq<Fact>, cfg: Config, c: Option<Conn>, f: Flow, inputs: seq<Input>, e: Event, data: SpanData, now: int, j: nat)
    requires SpansOf(f.queue) == Opened(c).queue && forall i <- Opened(c).queue :: i < Arrivals(inputs)
    ensures var facts := HandledFacts(cfg, c, inputs, e, now) + LateFacts(Handled(cfg, c, e, Arrivals(inputs), now), inputs, e, data, now);
            AnsweredHere(h + facts, j) <==>
            AnsweredHere(h, j) || (Takes(e, data, f.queue) && IsResponse(e) && j == f.queue[0].span && j < Arrivals(inputs))
  {
    hide HandledFacts, LateFacts, Handled, AnsweredHere, IsRequestPayload, IsResponsePayload;
    var facts := HandledFacts(cfg, c, inputs, e, now) + LateFacts(Handled(cfg, c, e, Arrivals(inputs), now), inputs, e, data, now);
    EventFactsSay(cfg, c, inputs, e, data, now, j);
    Later(h, facts, j);
    TakesIs(e, data, f.queue, Opened(c).queue);
    if f.queue != [] {
      assert SpansOf(f.queue)[0] == f.queue[0].span && Opened(c).queue[0] in Opened(c).queue;
    }
  }

  lemma CountersAgree(f: Flow, c: Conn, inputs: seq<Input>)
    requires Same(f, c, inputs)
    ensures f.seqCounter == c.requests
  {
  }

  lemma NewNumber(s: State, f: Flow, e: Event, data: SpanData, now: int)
    requires IsRequest(e)
    ensures NumberFits(NewSpan(s, f, e, data, now), f.seqCounter + 1, false)
  {
    hide IsRequestPayload;
  }

  lemma TickNumbers(cfg: Config, before: seq<Input>, order: seq<string>, now: int)
    requires NumbersFit(Run(cfg, before), cfg, before)
    ensures NumbersFit(CleanupExpired(Run(cfg, before), order, now), cfg, before + [Tick(order, now)])
  {
    hide Run, ExpirePending, ExpireFlows, Overdue, NumberFits, IsRequestPayload, AnsweredHere;
    var s, all := Run(cfg, before), before + [Tick(order, now)];
    assert all[..|before|] == before;
    var s1 := ExpirePending(s, 0, now);
    var s' := ExpireFlows(s1, order, now);
    PendingOnly(s, 0, now);
    PlainTags();
    assert Plain("timeout") by {
      Names();
    }
    forall i | 0 <= i < |s.spans| && IsRequest(EventOf(all, i))
      ensures NumberFits(s'.spans[i], NumberOf(cfg, all, i), AnsweredHere(s'.hist, i))
    {
      DataKept(before, Tick(order, now), i);
      NumberKept(cfg, before, Tick(order, now), i);
      var n, answered := NumberOf(cfg, before, i), AnsweredHere(s.hist, i);
      PendingSpans(s, 0, now, i);
      NumberStays(s.spans[i], s1.spans[i], n, answered, "timeout");
      var facts := FlowSpans(s1, order, now, i);
      NumberStays(s1.spans[i], s'.spans[i], n, answered, "connection_timeout");
      Later(s.hist, facts, i);
      OnlyTimedOut(facts, i);
    }
  }

  /** In every run each request is tagged with its number on its connection, and so is the response to it. */
  lemma {:induction false} RequestsNumbered(cfg: Config, inputs: seq<Input>)
    ensures NumbersFit(Run(cfg, inputs), cfg, inputs)
  {
    hide ProcessEvent, CleanupExpired, NumberFits, NumberOf, AnsweredHere;
    if inputs != [] {
      var n := |inputs| - 1;
      RequestsNumbered(cfg, inputs[..n]);
      assert inputs[..n] + [inputs[n]] == inputs;
      match inputs[n]
      case Arrive(e, data, now) => EventNumbers(cfg, inputs[..n], e, data, now);
      case Tick(order, now) => TickNumbers(cfg, inputs[..n], order, now);
    }
  }
}
