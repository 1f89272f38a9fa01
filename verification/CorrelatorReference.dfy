/** What a run does to one connection, told from its inputs alone: a queue of the spans in flight and the times of
    its traffic. Connections do not influence each other, and the history of a run follows from theirs. */
module CorrelatorReference {
  import opened Options
  import opened CorrelatorModel
  import opened CorrelatorAccounting
  import opened CorrelatorEmission

  // ---------- the reference ----------

  /** The events among the inputs; the i-th one belongs to span i. */
  function ArrivalsOf(inputs: seq<Input>): (arrived: seq<Input>)
    ensures |arrived| == Arrivals(inputs) && forall a <- arrived :: a.Arrive?
  {
    if inputs == [] then []
    else
      var n := |inputs| - 1;
      ArrivalsOf(inputs[..n]) + if inputs[n].Arrive? then [inputs[n]] else []
  }

  /** When the event of span i came, if there is one. */
  function ArrivedAt(inputs: seq<Input>, i: nat): int {
    if i < Arrivals(inputs) then ArrivalsOf(inputs)[i].now else 0
  }

  function EventOf(inputs: seq<Input>, i: nat): Event
    requires i < Arrivals(inputs)
  {
    ArrivalsOf(inputs)[i].e
  }

  function DataOf(inputs: seq<Input>, i: nat): SpanData
    requires i < Arrivals(inputs)
  {
    ArrivalsOf(inputs)[i].data
  }

  /** The spans of the requests in flight, the oldest first; when the sends and receives came since the connection
      was opened; and how many of the sends were requests. */
  datatype Conn = Conn(queue: seq<nat>, sends: seq<int>, recvs: seq<int>, requests: nat)

  const OPENED := Conn([], [], [], 0)

  function Opened(c: Option<Conn>): Conn { if c.Some? then c.value else OPENED }

  predicate Lately(times: seq<int>, now: int, timeout: int) {
    times != [] && now - times[|times| - 1] <= timeout
  }

  predicate Active(c: Conn, now: int, timeout: int) {
    Lately(c.sends, now, timeout) || Lately(c.recvs, now, timeout)
  }

  predicate IsRequest(e: Event) { e.eventType == EVENT_SEND_TO && IsRequestPayload(e) }
  predicate IsResponse(e: Event) { e.eventType == EVENT_RECV_FROM && IsResponsePayload(e) }

  /** Neither the program nor the conversion has given the event's span a trace id when its handler is done. */
  predicate Unnamed(e: Event, data: SpanData) {
    data.traceId == "" && !IsRequest(e) && !IsResponse(e)
  }

  /** Full queues make room for a request. */
  function Room(queue: seq<nat>, maxInflight: int): seq<nat> {
    if |queue| >= maxInflight && queue != [] then queue[1..] else queue
  }

  function Tail(queue: seq<nat>): seq<nat> { if queue != [] then queue[1..] else [] }

  /** What the handler of span i's event makes of its connection. */
  function Handled(cfg: Config, c: Option<Conn>, e: Event, i: nat, now: int): Option<Conn> {
    var o := Opened(c);
    if e.eventType == EVENT_CONNECT || e.eventType == EVENT_ACCEPT then Some(OPENED)
    else if e.eventType == EVENT_SEND_TO then
      var o1 := o.(sends := o.sends + [now]);
      Some(if IsRequest(e) then o1.(queue := Room(o.queue, cfg.maxInflight) + [i], requests := o.requests + 1) else o1)
    else if e.eventType == EVENT_RECV_FROM then
      Some(o.(recvs := o.recvs + [now], queue := if IsResponse(e) then Tail(o.queue) else o.queue))
    else if e.eventType == EVENT_CLOSE then None
    else c
  }

  /** A span that is still unnamed opens the connection if need be, and a receive takes a request late. */
  function Concluded(c: Option<Conn>, e: Event, data: SpanData): Option<Conn> {
    if !Unnamed(e, data) then c
    else
      var o := Opened(c);
      Some(o.(queue := if e.eventType == EVENT_RECV_FROM then Tail(o.queue) else o.queue))
  }

  /** A tick that visits these connections forgets the ones without recent traffic. */
  function Visited(c: Option<Conn>, key: string, order: seq<string>, now: int, timeout: int): Option<Conn> {
    if key in order && c.Some? && !Active(c.value, now, timeout) then None else c
  }

  function Connection(cfg: Config, inputs: seq<Input>, key: string): Option<Conn> {
    if inputs == [] then None
    else
      var n := |inputs| - 1;
      var c := Connection(cfg, inputs[..n], key);
      match inputs[n]
      case Arrive(e, data, now) =>
        if KeyOf(e) == key then Concluded(Handled(cfg, c, e, Arrivals(inputs[..n]), now), e, data) else c
      case Tick(order, now) => Visited(c, key, order, now, cfg.timeout)
  }

  /** What the handler of an event adds to the history, if its connection was c. */
  function HandledFacts(cfg: Config, c: Option<Conn>, inputs: seq<Input>, e: Event, now: int): seq<Fact> {
    var queue := Opened(c).queue;
    if e.eventType == EVENT_CONNECT || e.eventType == EVENT_ACCEPT then (if c.Some? then [Overwritten(queue)] else [])
    else if e.eventType == EVENT_CLOSE then (if c.Some? then [Closed(queue)] else [])
    else if queue == [] then []
    else if IsRequest(e) then (if |queue| >= cfg.maxInflight then [Evicted(queue[0])] else [])
    else if IsResponse(e) then [MatchedInRecv(queue[0], Arrivals(inputs), now - ArrivedAt(inputs, queue[0]))]
    else []
  }

  /** What a late match adds, if the handler left connection c. */
  function LateFacts(c: Option<Conn>, inputs: seq<Input>, e: Event, data: SpanData, now: int): seq<Fact> {
    var queue := Opened(c).queue;
    if Unnamed(e, data) && e.eventType == EVENT_RECV_FROM && queue != []
    then [MatchedLate(queue[0], Arrivals(inputs), now - ArrivedAt(inputs, queue[0]))] else []
  }

  /** A tick times idle connections out, in the order of their visits. */
  function TickFacts(cfg: Config, inputs: seq<Input>, order: seq<string>, now: int): seq<Fact> {
    if order == [] then []
    else
      var n := |order| - 1;
      var c := Connection(cfg, inputs, order[n]);
      TickFacts(cfg, inputs, order[..n], now) +
      if order[n] !in order[..n] && c.Some? && !Active(c.value, now, cfg.timeout) then [TimedOut(c.value.queue)] else []
  }

  function History(cfg: Config, inputs: seq<Input>): seq<Fact> {
    if inputs == [] then []
    else
      var n := |inputs| - 1;
      var before := inputs[..n];
      History(cfg, before) +
      match inputs[n]
      case Arrive(e, data, now) =>
        var c := Connection(cfg, before, KeyOf(e));
        HandledFacts(cfg, c, before, e, now) + LateFacts(Handled(cfg, c, e, Arrivals(before), now), before, e, data, now)
      case Tick(order, now) => TickFacts(cfg, before, order, now)
  }

  // ---------- what the handlers do to the map and the history ----------

  function FlowOf(conns: map<string, Flow>, key: string): Flow {
    if key in conns then conns[key] else EMPTY_FLOW
  }

  /** The state's map and history are those of s with a flow put under the key and facts added. */
  predicate Becomes(s: State, s': State, key: string, f: Flow, facts: seq<Fact>) {
    s'.conns == s.conns[key := f] && s'.hist == s.hist + facts
  }

  lemma OpenIs(s: State, key: string)
    ensures Becomes(s, Open(s, key), key, EMPTY_FLOW, if key in s.conns then [Overwritten(SpansOf(s.conns[key].queue))] else [])
  {
    hide SpansOf;
    assert s.hist + [] == s.hist;
  }

  lemma GetOrCreateIs(s: State, key: string)
    ensures Becomes(s, GetOrCreateFlow(s, key), key, FlowOf(s.conns, key), [])
    ensures GetOrCreateFlow(s, key).pending == s.pending && GetOrCreateFlow(s, key).spans == s.spans
  {
    assert s.hist + [] == s.hist;
    if key in s.conns {
      assert s.conns[key := s.conns[key]] == s.conns;
    }
  }

  lemma EvictIs(s: State, key: string)
    requires key in s.conns
    ensures var f := s.conns[key];
            if |f.queue| >= s.cfg.maxInflight && f.queue != [] then
              Becomes(s, EvictIfFull(s, key), key, f.(queue := f.queue[1..]), [Evicted(f.queue[0].span)])
            else EvictIfFull(s, key) == s
  {
  }

  function SentFlow(cfg: Config, f: Flow, i: nat, isRequest: bool, now: int): Flow {
    if !isRequest then f.(lastSend := At(now))
    else
      var rest := if |f.queue| >= cfg.maxInflight && f.queue != [] then f.queue[1..] else f.queue;
      Flow(rest + [Request(i, f.seqCounter + 1, now)], f.seqCounter + 1, At(now), f.lastRecv)
  }

  lemma SendIs(s: State, i: nat, key: string, isRequest: bool, now: int)
    ensures var f := FlowOf(s.conns, key);
            Becomes(s, HandleSend(s, i, key, isRequest, now), key, SentFlow(s.cfg, f, i, isRequest, now),
                    if isRequest && |f.queue| >= s.cfg.maxInflight && f.queue != [] then [Evicted(f.queue[0].span)] else [])
  {
    hide EvictIfFull;
    var f := FlowOf(s.conns, key);
    GetOrCreateIs(s, key);
    var s1 := TouchSend(GetOrCreateFlow(s, key), key, now);
    assert s1.conns == s.conns[key := f.(lastSend := At(now))] && s1.hist == s.hist;
    if isRequest {
      var s2 := SetSpan(s1, i, Deref(s1.spans, i).Named());
      EvictIs(s2, key);
      var s3 := EvictIfFull(s2, key);
      assert Enqueue(s3, i, key, now).conns == s.conns[key := SentFlow(s.cfg, f, i, true, now)];
    }
  }

  lemma MatchIs(s: State, i: nat, key: string, now: int, late: bool)
    requires key in s.conns && s.conns[key].queue != []
    ensures var f := s.conns[key]; var req := f.queue[0];
            Becomes(s, MatchFront(s, i, key, now, late), key, f.(queue := f.queue[1..]),
                    [MatchFact(req.span, i, now - req.sendTime, late)])
  {
    hide Answer;
  }

  function TakenFlow(f: Flow, taken: bool): Flow {
    if taken && f.queue != [] then f.(queue := f.queue[1..]) else f
  }

  function TakenFacts(f: Flow, i: nat, taken: bool, now: int, late: bool): seq<Fact> {
    if taken && f.queue != [] then [MatchFact(f.queue[0].span, i, now - f.queue[0].sendTime, late)] else []
  }

  lemma RecvIs(s: State, i: nat, key: string, isResponse: bool, now: int)
    ensures var f := FlowOf(s.conns, key).(lastRecv := At(now));
            Becomes(s, HandleRecv(s, i, key, isResponse, now), key, TakenFlow(f, isResponse), TakenFacts(f, i, isResponse, now, false))
  {
    hide MatchFront, MatchFact;
    var f := FlowOf(s.conns, key).(lastRecv := At(now));
    GetOrCreateIs(s, key);
    var s1 := TouchRecv(GetOrCreateFlow(s, key), key, now);
    assert s1.conns == s.conns[key := f] && s1.hist == s.hist;
    if isResponse && f.queue != [] {
      MatchIs(s1, i, key, now, false);
      assert s1.conns[key := f.(queue := f.queue[1..])] == s.conns[key := f.(queue := f.queue[1..])];
    }
  }

  lemma TryIs(s: State, i: nat, key: string, e: Event, now: int)
    ensures var f, taken := FlowOf(s.conns, key), e.eventType == EVENT_RECV_FROM;
            Becomes(s, TryCorrelate(s, i, key, e, now), key, TakenFlow(f, taken), TakenFacts(f, i, taken, now, true))
  {
    hide MatchFront, MatchFact, WithoutSpan;
    var f := FlowOf(s.conns, key);
    GetOrCreateIs(s, key);
    var s1 := GetOrCreateFlow(s, key);
    if e.eventType == EVENT_RECV_FROM && f.queue != [] {
      MatchIs(s1, i, key, now, true);
      assert s1.conns[key := f.(queue := f.queue[1..])] == s.conns[key := f.(queue := f.queue[1..])];
    }
  }

  lemma DropIs(s: State, key: string, closing: bool)
    requires key in s.conns
    ensures var ids := SpansOf(s.conns[key].queue); var s' := DropFlow(s, key, closing);
            s'.conns == s.conns - {key} && s'.hist == s.hist + [if closing then Closed(ids) else TimedOut(ids)]
  {
    hide EmitAll, SpansOf;
  }

  // ---------- the handlers follow the reference ----------

  function LastOf(times: seq<int>): Instant {
    if times == [] then Never else At(times[|times| - 1])
  }

  /** The requests have the last numbers up to n, one after the other. */
  predicate Numbered(queue: seq<Request>, n: nat) {
    forall k :: 0 <= k < |queue| ==> queue[k].seqNo == n - |queue| + 1 + k
  }

  /** The flow stands for the connection, and its requests have the times of their arrivals. */
  ghost predicate Same(f: Flow, c: Conn, inputs: seq<Input>) {
    && SpansOf(f.queue) == c.queue && f.lastSend == LastOf(c.sends) && f.lastRecv == LastOf(c.recvs)
    && f.seqCounter == c.requests && Numbered(f.queue, c.requests)
    && forall r <- f.queue :: r.span < Arrivals(inputs) && r.sendTime == ArrivedAt(inputs, r.span)
  }

  ghost predicate Agree(conns: map<string, Flow>, key: string, c: Option<Conn>, inputs: seq<Input>) {
    && (key in conns <==> c.Some?)
    && (c.Some? ==> Same(conns[key], c.value, inputs))
  }

  lemma ArrivalsKept(inputs: seq<Input>, input: Input, i: nat)
    requires i < Arrivals(inputs)
    ensures i < Arrivals(inputs + [input]) && ArrivedAt(inputs + [input], i) == ArrivedAt(inputs, i)
  {
    assert (inputs + [input])[..|inputs|] == inputs;
  }

  lemma NewArrival(inputs: seq<Input>, e: Event, data: SpanData, now: int)
    ensures var all := inputs + [Arrive(e, data, now)];
            Arrivals(all) == Arrivals(inputs) + 1 && ArrivedAt(all, Arrivals(inputs)) == now
  {
    assert (inputs + [Arrive(e, data, now)])[..|inputs|] == inputs;
  }

  lemma SameLater(f: Flow, c: Conn, inputs: seq<Input>, input: Input)
    requires Same(f, c, inputs)
    ensures Same(f, c, inputs + [input])
  {
    forall r | r in f.queue
      ensures r.span < Arrivals(inputs + [input]) && r.sendTime == ArrivedAt(inputs + [input], r.span)
    {
      ArrivalsKept(inputs, input, r.span);
    }
  }

  lemma SameTail(f: Flow, c: Conn, inputs: seq<Input>)
    requires Same(f, c, inputs) && f.queue != []
    ensures c.queue != [] && c.queue[0] == f.queue[0].span
    ensures Same(f.(queue := f.queue[1..]), c.(queue := c.queue[1..]), inputs)
  {
    assert SpansOf(f.queue)[1..] == SpansOf(f.queue[1..]);
  }

  lemma SameOpened(inputs: seq<Input>)
    ensures Same(EMPTY_FLOW, OPENED, inputs)
  {
  }

  lemma AgreeOpened(conns: map<string, Flow>, key: string, c: Option<Conn>, inputs: seq<Input>)
    requires Agree(conns, key, c, inputs)
    ensures Same(FlowOf(conns, key), Opened(c), inputs)
  {
    hide Same;
    SameOpened(inputs);
  }

  lemma SameQueue(f: Flow, c: Conn, inputs: seq<Input>)
    requires Same(f, c, inputs)
    ensures |f.queue| == |c.queue|
    ensures f.queue != [] ==> f.queue[0].span == c.queue[0] < Arrivals(inputs) && f.queue[0].sendTime == ArrivedAt(inputs, c.queue[0])
  {
  }

  lemma SentSame(cfg: Config, f: Flow, c: Conn, inputs: seq<Input>, e: Event, data: SpanData, now: int)
    requires Same(f, c, inputs) && e.eventType == EVENT_SEND_TO
    ensures Same(SentFlow(cfg, f, Arrivals(inputs), IsRequestPayload(e), now), Handled(cfg, Some(c), e, Arrivals(inputs), now).value,
                 inputs + [Arrive(e, data, now)])
  {
    hide IsRequestPayload, Arrivals, ArrivedAt, Same;
    var all, i := inputs + [Arrive(e, data, now)], Arrivals(inputs);
    SameLater(f, c, inputs, Arrive(e, data, now));
    NewArrival(inputs, e, data, now);
    SentTouched(f, c, all, now);
    SameQueue(f, c, all);
    if IsRequestPayload(e) {
      if |f.queue| >= cfg.maxInflight && f.queue != [] {
        SameTail(f, c, all);
      }
      var rest := if |f.queue| >= cfg.maxInflight && f.queue != [] then f.queue[1..] else f.queue;
      SameJoined(f.(queue := rest), c.(queue := Room(c.queue, cfg.maxInflight)), all, i, now);
    }
  }

  /** One more request, which comes now. */
  lemma SameJoined(f: Flow, c: Conn, inputs: seq<Input>, i: nat, now: int)
    requires Same(f, c, inputs) && i < Arrivals(inputs) && ArrivedAt(inputs, i) == now
    ensures Same(Flow(f.queue + [Request(i, f.seqCounter + 1, now)], f.seqCounter + 1, At(now), f.lastRecv),
                 Conn(c.queue + [i], c.sends + [now], c.recvs, c.requests + 1), inputs)
  {
    hide Arrivals, ArrivedAt;
    var r := Request(i, f.seqCounter + 1, now);
    assert SpansOf(f.queue + [r]) == SpansOf(f.queue) + [i];
  }

  lemma SentTouched(f: Flow, c: Conn, inputs: seq<Input>, now: int)
    requires Same(f, c, inputs)
    ensures Same(f.(lastSend := At(now)), c.(sends := c.sends + [now]), inputs)
  {
  }

  lemma TakenSame(f: Flow, c: Conn, inputs: seq<Input>, taken: bool)
    requires Same(f, c, inputs)
    ensures Same(TakenFlow(f, taken), if taken then c.(queue := Tail(c.queue)) else c, inputs)
  {
    SameQueue(f, c, inputs);
    if taken && f.queue != [] {
      SameTail(f, c, inputs);
    }
  }

  /** Nothing happens under the other keys. */
  ghost predicate Elsewhere(conns: map<string, Flow>, conns': map<string, Flow>, key: string) {
    forall k :: k != key ==> (k in conns <==> k in conns') && (k in conns ==> conns'[k] == conns[k])
  }

  lemma PutElsewhere(conns: map<string, Flow>, key: string, f: Flow)
    ensures Elsewhere(conns, conns[key := f], key) && Elsewhere(conns, conns - {key}, key)
  {
  }

  lemma HandledAgrees(s: State, key: string, c: Option<Conn>, inputs: seq<Input>, e: Event, data: SpanData, now: int)
    requires Agree(s.conns, key, c, inputs)
    ensures var i := Arrivals(inputs); var s' := Dispatch(s, i, key, e, now);
            && Agree(s'.conns, key, Handled(s.cfg, c, e, i, now), inputs + [Arrive(e, data, now)])
            && Elsewhere(s.conns, s'.conns, key) && s'.hist == s.hist + HandledFacts(s.cfg, c, inputs, e, now)
  {
    hide Open, HandleSend, HandleRecv, DropFlow, IsRequestPayload, IsResponsePayload, Same, Elsewhere, ArrivedAt, Arrivals, SpansOf;
    var i, all, f := Arrivals(inputs), inputs + [Arrive(e, data, now)], FlowOf(s.conns, key);
    AgreeOpened(s.conns, key, c, inputs);
    SameQueue(f, Opened(c), inputs);
    var s' := Dispatch(s, i, key, e, now);
    if e.eventType == EVENT_CONNECT || e.eventType == EVENT_ACCEPT {
      OpenIs(s, key);
      SameOpened(all);
      SpansOfFlow(f, Opened(c), inputs);
      PutElsewhere(s.conns, key, EMPTY_FLOW);
    } else if e.eventType == EVENT_SEND_TO {
      SendIs(s, i, key, IsRequestPayload(e), now);
      SentSame(s.cfg, f, Opened(c), inputs, e, data, now);
      PutElsewhere(s.conns, key, s'.conns[key]);
    } else if e.eventType == EVENT_RECV_FROM {
      RecvIs(s, i, key, IsResponsePayload(e), now);
      RecvSame(f, Opened(c), inputs, now);
      var f1, c1 := f.(lastRecv := At(now)), Opened(c).(recvs := Opened(c).recvs + [now]);
      TakenSame(f1, c1, inputs, IsResponsePayload(e));
      SameLater(TakenFlow(f1, IsResponsePayload(e)), Handled(s.cfg, c, e, i, now).value, inputs, Arrive(e, data, now));
      PutElsewhere(s.conns, key, s'.conns[key]);
    } else if e.eventType == EVENT_CLOSE {
      PutElsewhere(s.conns, key, f);
      SpansOfFlow(f, Opened(c), inputs);
      if key in s.conns {
        DropIs(s, key, true);
      } else {
        ElsewhereSame(s.conns, key);
      }
    } else {
      ElsewhereSame(s.conns, key);
      if key in s.conns {
        SameLater(f, Opened(c), inputs, Arrive(e, data, now));
      }
    }
  }

  lemma SpansOfFlow(f: Flow, c: Conn, inputs: seq<Input>)
    requires Same(f, c, inputs)
    ensures SpansOf(f.queue) == c.queue
  {
  }

  lemma RecvSame(f: Flow, c: Conn, inputs: seq<Input>, now: int)
    requires Same(f, c, inputs)
    ensures Same(f.(lastRecv := At(now)), c.(recvs := c.recvs + [now]), inputs)
  {
  }

  lemma ElsewhereSame(conns: map<string, Flow>, key: string)
    ensures Elsewhere(conns, conns, key)
  {
  }

  lemma ElsewhereTwice(a: map<string, Flow>, b: map<string, Flow>, c: map<string, Flow>, key: string)
    requires Elsewhere(a, b, key) && Elsewhere(b, c, key)
    ensures Elsewhere(a, c, key)
  {
  }

  lemma TriedAgrees(s: State, key: string, c: Option<Conn>, before: seq<Input>, e: Event, data: SpanData, now: int)
    requires var all := before + [Arrive(e, data, now)]; Agree(s.conns, key, c, all)
    requires Unnamed(e, data) && forall i <- Opened(c).queue :: i < Arrivals(before)
    ensures var i := Arrivals(before); var s' := TryCorrelate(s, i, key, e, now);
            && Agree(s'.conns, key, Concluded(c, e, data), before + [Arrive(e, data, now)])
            && Elsewhere(s.conns, s'.conns, key) && s'.hist == s.hist + LateFacts(c, before, e, data, now)
  {
    hide TryCorrelate, IsRequestPayload, IsResponsePayload, Same, Elsewhere, ArrivedAt, Arrivals, SpansOf;
    var i, all, f := Arrivals(before), before + [Arrive(e, data, now)], FlowOf(s.conns, key);
    AgreeOpened(s.conns, key, c, all);
    SameQueue(f, Opened(c), all);
    TryIs(s, i, key, e, now);
    TakenSame(f, Opened(c), all, e.eventType == EVENT_RECV_FROM);
    PutElsewhere(s.conns, key, TakenFlow(f, e.eventType == EVENT_RECV_FROM));
    if f.queue != [] {
      assert Opened(c).queue[0] in Opened(c).queue;
      ArrivalsKept(before, Arrive(e, data, now), Opened(c).queue[0]);
    }
  }

  // ---------- which spans are still unnamed ----------

  lemma SendNames(s: State, i: nat, key: string, now: int)
    requires i < |s.spans|
    ensures HandleSend(s, i, key, false, now).spans == s.spans
  {
  }

  lemma RecvNames(s: State, i: nat, key: string, isResponse: bool, now: int)
    requires Sound(s) && Free(s, i)
    ensures var s' := HandleRecv(s, i, key, isResponse, now);
            if isResponse then s'.spans[i].traceId != "" else s'.spans == s.spans
  {
    GetOrCreateSound(s, key, i);
    var s0 := GetOrCreateFlow(s, key);
    TouchSound(s0, key, s0.conns[key].(lastRecv := At(now)), i);
    var s1 := TouchRecv(s0, key, now);
    hide Placed, Linked, BookOf;
    if isResponse && s1.conns[key].queue != [] {
      MatchSpans(s1, i, key, now, false);
    }
  }

  lemma UnnamedIff(s: State, i: nat, key: string, e: Event, data: SpanData, now: int)
    requires Sound(s) && Free(s, i) && s.spans[i] == data
    ensures Dispatch(s, i, key, e, now).spans[i].traceId == "" <==> Unnamed(e, data)
  {
    hide HandleSend, HandleRecv, DropFlow, IsRequestPayload, IsResponsePayload, BookOf, AllPlaced, Linked;
    if e.eventType == EVENT_SEND_TO {
      SendSound(s, i, key, IsRequestPayload(e), now);
      SendNames(s, i, key, now);
    } else if e.eventType == EVENT_RECV_FROM {
      RecvNames(s, i, key, IsResponsePayload(e), now);
    } else if e.eventType == EVENT_CLOSE && key in s.conns {
      DropSound(s, key, true);
    }
  }

  lemma ConcludedAgrees(s: State, key: string, c: Option<Conn>, before: seq<Input>, e: Event, data: SpanData, now: int)
    requires var all := before + [Arrive(e, data, now)]; Agree(s.conns, key, c, all)
    requires Arrivals(before) < |s.spans| && (s.spans[Arrivals(before)].traceId == "" <==> Unnamed(e, data))
    requires Unnamed(e, data) ==> forall i <- Opened(c).queue :: i < Arrivals(before)
    ensures var i := Arrivals(before); var s' := Conclude(s, i, key, e, now);
            && Agree(s'.conns, key, Concluded(c, e, data), before + [Arrive(e, data, now)])
            && Elsewhere(s.conns, s'.conns, key) && s'.hist == s.hist + LateFacts(c, before, e, data, now)
  {
    hide TryCorrelate, Same, Elsewhere, IsRequestPayload, IsResponsePayload, Arrivals;
    var i := Arrivals(before);
    ElsewhereSame(s.conns, key);
    if Unnamed(e, data) {
      TriedAgrees(s.(pending := s.pending + [Waiting(i, now)]), key, c, before, e, data, now);
    } else {
      assert s.hist + [] == s.hist;
    }
  }

  // ---------- whole runs ----------

  ghost predicate AllAgree(s: State, cfg: Config, inputs: seq<Input>) {
    forall key :: Agree(s.conns, key, Connection(cfg, inputs, key), inputs)
  }

  lemma QueueOld(f: Flow, c: Conn, inputs: seq<Input>)
    requires Same(f, c, inputs)
    ensures forall i <- c.queue :: i < Arrivals(inputs)
  {
    forall i | i in c.queue
      ensures i < Arrivals(inputs)
    {
      var k :| 0 <= k < |c.queue| && c.queue[k] == i;
      assert f.queue[k] in f.queue && SpansOf(f.queue)[k] == i;
    }
  }

  /** Handling an event adds no request to the queue of a span that stays unnamed. */
  lemma UnnamedQueue(cfg: Config, c: Option<Conn>, e: Event, data: SpanData, i: nat, now: int)
    requires Unnamed(e, data)
    ensures forall j <- Opened(Handled(cfg, c, e, i, now)).queue :: j in Opened(c).queue
  {
    hide IsRequestPayload, IsResponsePayload;
  }

  lemma {:induction false} EventAgrees(cfg: Config, before: seq<Input>, e: Event, data: SpanData, now: int)
    requires AllAgree(Run(cfg, before), cfg, before) && |Run(cfg, before).spans| == Arrivals(before)
    ensures var all := before + [Arrive(e, data, now)]; var s, s' := Run(cfg, before), ProcessEvent(Run(cfg, before), e, data, now);
            && AllAgree(s', cfg, all)
            && var c := Connection(cfg, before, KeyOf(e));
               s'.hist == s.hist + (HandledFacts(cfg, c, before, e, now) +
                                    LateFacts(Handled(cfg, c, e, Arrivals(before), now), before, e, data, now))
  {
    hide Run, Dispatch, Conclude, Agree, Handled, Concluded, HandledFacts, LateFacts, Unnamed, Sound, Free, Elsewhere, KeyOf;
    var all, key, i := before + [Arrive(e, data, now)], KeyOf(e), Arrivals(before);
    assert all[..|before|] == before;
    var s := Run(cfg, before);
    var c := Connection(cfg, before, key);
    var s1 := Arrived(s, data);
    var s2 := Dispatch(s1, i, key, e, now);
    var s3 := Conclude(s2, i, key, e, now);
    RunSound(cfg, before);
    ArrivedSound(s, data);
    HandledAgrees(s1, key, c, before, e, data, now);
    UnnamedIff(s1, i, key, e, data, now);
    if Unnamed(e, data) {
      AgreeQueueOld(s.conns, key, c, before);
      UnnamedQueue(cfg, c, e, data, i, now);
    }
    ConcludedAgrees(s2, key, Handled(cfg, c, e, i, now), before, e, data, now);
    ElsewhereTwice(s.conns, s2.conns, s3.conns, key);
    forall k ensures Agree(s3.conns, k, Connection(cfg, all, k), all) {
      if k != key {
        AgreeElsewhere(s.conns, s3.conns, key, k, Connection(cfg, before, k), before, Arrive(e, data, now));
      }
    }
    Added(s.hist, HandledFacts(cfg, c, before, e, now), LateFacts(Handled(cfg, c, e, i, now), before, e, data, now));
  }

  lemma Added<T>(a: seq<T>, b: seq<T>, c: seq<T>)
    ensures a + b + c == a + (b + c)
  {
  }

  lemma AgreeQueueOld(conns: map<string, Flow>, key: string, c: Option<Conn>, inputs: seq<Input>)
    requires Agree(conns, key, c, inputs)
    ensures forall i <- Opened(c).queue :: i < Arrivals(inputs)
  {
    hide Same;
    if c.Some? {
      QueueOld(conns[key], c.value, inputs);
    }
  }

  lemma AgreeElsewhere(conns: map<string, Flow>, conns': map<string, Flow>, key: string, k: string, c: Option<Conn>,
                       inputs: seq<Input>, input: Input)
    requires Elsewhere(conns, conns', key) && k != key && Agree(conns, k, c, inputs)
    ensures Agree(conns', k, c, inputs + [input])
  {
    hide Same;
    if c.Some? {
      SameLater(conns[k], c.value, inputs, input);
    }
  }

  lemma ExpiredIff(s: State, key: string, c: Option<Conn>, inputs: seq<Input>, now: int)
    requires Agree(s.conns, key, c, inputs)
    ensures FlowExpired(s, key, now) <==> c.Some? && !Active(c.value, now, s.cfg.timeout)
  {
  }

  lemma {:induction false} PendingOnly(s: State, j: nat, now: int)
    requires j <= |s.pending|
    ensures ExpirePending(s, j, now).conns == s.conns && ExpirePending(s, j, now).hist == s.hist
    decreases |s.pending| - j
  {
    hide Deref;
    if j < |s.pending| {
      PendingOnly(if now - s.pending[j].since > s.cfg.timeout then ExpireOne(s, j) else s,
                  if now - s.pending[j].since > s.cfg.timeout then j else j + 1, now);
    }
  }

  ghost predicate Ticked(s: State, s': State, cfg: Config, inputs: seq<Input>, order: seq<string>, now: int) {
    && s'.cfg == cfg && s'.hist == s.hist + TickFacts(cfg, inputs, order, now)
    && forall key :: Agree(s'.conns, key, Visited(Connection(cfg, inputs, key), key, order, now, cfg.timeout), inputs)
  }

  lemma VisitAgrees(s: State, s': State, cfg: Config, inputs: seq<Input>, order: seq<string>, key: string, now: int)
    requires Ticked(s, s', cfg, inputs, order, now)
    ensures Ticked(s, if FlowExpired(s', key, now) then DropFlow(s', key, false) else s', cfg, inputs, order + [key], now)
  {
    hide Agree, Active, DropFlow, Connection;
    var c := Connection(cfg, inputs, key);
    var v := Visited(c, key, order, now, cfg.timeout);
    assert (order + [key])[..|order|] == order;
    assert forall k :: k in order + [key] <==> k in order || k == key;
    ExpiredIff(s', key, v, inputs, now);
    var t := if FlowExpired(s', key, now) then DropFlow(s', key, false) else s';
    if FlowExpired(s', key, now) {
      DroppedAgrees(s', key, v, inputs);
    }
    forall k ensures Agree(t.conns, k, Visited(Connection(cfg, inputs, k), k, order + [key], now, cfg.timeout), inputs) {
      if k != key {
        assert Agree(s'.conns, k, Visited(Connection(cfg, inputs, k), k, order, now, cfg.timeout), inputs);
        if FlowExpired(s', key, now) {
          PutElsewhere(s'.conns, key, EMPTY_FLOW);
          AgreeSame(s'.conns, t.conns, key, k, Visited(Connection(cfg, inputs, k), k, order, now, cfg.timeout), inputs);
        }
      } else {
        assert Agree(s'.conns, key, v, inputs);
      }
    }
  }

  lemma DroppedAgrees(s: State, key: string, c: Option<Conn>, inputs: seq<Input>)
    requires Agree(s.conns, key, c, inputs) && c.Some? && key in s.conns
    ensures Agree(DropFlow(s, key, false).conns, key, None, inputs)
    ensures DropFlow(s, key, false).conns == s.conns - {key} && DropFlow(s, key, false).cfg == s.cfg
    ensures DropFlow(s, key, false).hist == s.hist + [TimedOut(c.value.queue)]
  {
    DropIs(s, key, false);
    SpansOfFlow(s.conns[key], c.value, inputs);
  }

  lemma AgreeSame(conns: map<string, Flow>, conns': map<string, Flow>, key: string, k: string, c: Option<Conn>, inputs: seq<Input>)
    requires Elsewhere(conns, conns', key) && k != key && Agree(conns, k, c, inputs)
    ensures Agree(conns', k, c, inputs)
  {
    hide Same;
  }

  lemma {:induction false} FlowsTicked(s: State, cfg: Config, inputs: seq<Input>, order: seq<string>, now: int)
    requires AllAgree(s, cfg, inputs) && s.cfg == cfg
    ensures Ticked(s, ExpireFlows(s, order, now), cfg, inputs, order, now)
    decreases |order|
  {
    if order == [] {
      hide Agree;
      assert s.hist + [] == s.hist;
    } else {
      hide Ticked, AllAgree, FlowExpired, DropFlow, ExpireFlows;
      var n := |order| - 1;
      FlowsTicked(s, cfg, inputs, order[..n], now);
      VisitAgrees(s, ExpireFlows(s, order[..n], now), cfg, inputs, order[..n], order[n], now);
      ExpireFlowsSnoc(s, order[..n], order[n], now);
      assert order[..n] + [order[n]] == order;
    }
  }

  lemma {:induction false} TickAgrees(cfg: Config, before: seq<Input>, order: seq<string>, now: int)
    requires AllAgree(Run(cfg, before), cfg, before)
    ensures var all := before + [Tick(order, now)]; var s, s' := Run(cfg, before), CleanupExpired(Run(cfg, before), order, now);
            AllAgree(s', cfg, all) && s'.hist == s.hist + TickFacts(cfg, before, order, now)
  {
    hide Run, ExpirePending, ExpireFlows, Agree, Active;
    var all, s := before + [Tick(order, now)], Run(cfg, before);
    assert all[..|before|] == before;
    PendingOnly(s, 0, now);
    var s1 := ExpirePending(s, 0, now);
    FlowsTicked(s1, cfg, before, order, now);
    var s' := ExpireFlows(s1, order, now);
    forall key ensures Agree(s'.conns, key, Connection(cfg, all, key), all) {
      ConnectionTicked(cfg, before, order, now, key);
      AgreeAfterTick(s'.conns, key, Connection(cfg, all, key), before, Tick(order, now));
    }
  }

  lemma ConnectionTicked(cfg: Config, before: seq<Input>, order: seq<string>, now: int, key: string)
    ensures Connection(cfg, before + [Tick(order, now)], key) ==
            Visited(Connection(cfg, before, key), key, order, now, cfg.timeout)
  {
    assert (before + [Tick(order, now)])[..|before|] == before;
  }

  lemma AgreeAfterTick(conns: map<string, Flow>, key: string, c: Option<Conn>, inputs: seq<Input>, input: Input)
    requires Agree(conns, key, c, inputs)
    ensures Agree(conns, key, c, inputs + [input])
  {
    hide Same;
    if c.Some? {
      SameLater(conns[key], c.value, inputs, input);
    }
  }

  /** In every run each key has the connection of the reference, and what happened to requests is what the inputs
      say. */
  lemma {:induction false} RunFollows(cfg: Config, inputs: seq<Input>)
    ensures AllAgree(Run(cfg, inputs), cfg, inputs) && Run(cfg, inputs).hist == History(cfg, inputs)
  {
    hide ProcessEvent, CleanupExpired, Connection, HandledFacts, LateFacts, TickFacts, AllAgree, Handled, KeyOf;
    if inputs == [] {
      NothingYet(cfg);
    } else {
      var n := |inputs| - 1;
      var before := inputs[..n];
      RunFollows(cfg, before);
      OneSpanPerArrival(cfg, before);
      assert before + [inputs[n]] == inputs;
      match inputs[n]
      case Arrive(e, data, now) => EventAgrees(cfg, before, e, data, now);
      case Tick(order, now) => TickAgrees(cfg, before, order, now);
    }
  }

  lemma NothingYet(cfg: Config)
    ensures AllAgree(Run(cfg, []), cfg, [])
  {
  }
}
