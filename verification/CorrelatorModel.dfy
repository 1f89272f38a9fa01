/** The span correlator with each event handled atomically: its state and what one event or one
    cleanup tick does to it. */
module CorrelatorModel {
  import opened Bytes
  import opened ConnectionKey

  // ---------- events and spans ----------

  type Payload = p: seq<byte> | |p| == 1024 witness seq(1024, _ => 0)

  datatype Event = Event(
    pid: uint32, saddr: uint32, sport: uint16, daddr: uint32, dport: uint16,
    eventType: byte, protocol: byte, payloadSize: uint32, payload: Payload)

  const EVENT_CONNECT: byte := 0
  const EVENT_ACCEPT: byte := 1
  const EVENT_SEND_TO: byte := 2
  const EVENT_RECV_FROM: byte := 3
  const EVENT_CLOSE: byte := 4

  const PROTOCOL_GRPC: byte := 1
  const PROTOCOL_REDIS: byte := 2

  function KeyOf(e: Event): string {
    EventKey(e.pid, e.saddr, e.sport, e.daddr, e.dport)
  }

  predicate StartsWith(p: Payload, text: string)
    requires |text| <= |p|
  {
    forall i :: 0 <= i < |text| ==> p[i] as int == text[i] as int
  }

  predicate IsRequestPayload(e: Event) {
    e.payloadSize >= 4 &&
    (|| StartsWith(e.payload, "GET") || StartsWith(e.payload, "POST")
     || StartsWith(e.payload, "PUT") || StartsWith(e.payload, "DELE")
     || (e.protocol == PROTOCOL_REDIS && StartsWith(e.payload, "*"))
     || (e.protocol == PROTOCOL_GRPC && e.payload[0] == 0))
  }

  predicate IsResponsePayload(e: Event) {
    e.payloadSize >= 4 &&
    (|| StartsWith(e.payload, "HTTP")
     || (e.protocol == PROTOCOL_REDIS &&
         (StartsWith(e.payload, "+") || StartsWith(e.payload, "-") ||
          StartsWith(e.payload, ":") || StartsWith(e.payload, "$")))
     || (e.protocol == PROTOCOL_GRPC && e.payload[0] == 1))
  }

  datatype Tag = Number(n: nat) | Flag

  /** 32 hexadecimal characters: half of a SHA-256 digest. */
  type TraceId = s: string | |s| == 32 witness seq(32, _ => '0')

  /** The fields of a span that the correlator reads or writes.
      derivedId is the id generateDeterministicTraceID computes from the span's constant fields.
      freshId is the random span id drawn for this span; no span is ever given a second one. */
  datatype SpanData = SpanData(
    traceId: string, spanId: string, parentSpanId: string,
    derivedId: TraceId, freshId: string, durationNs: int, tags: map<string, Tag>)
  {
    function Tagged(name: string, tag: Tag): SpanData {
      this.(tags := tags[name := tag])
    }

    /** An empty trace id is replaced; a present one is kept with its span id. */
    function Named(): SpanData {
      if traceId == "" then this.(traceId := derivedId, spanId := freshId) else this
    }

    /** A response adopts its request's trace and becomes its child. */
    function Answering(req: SpanData, elapsedNs: int): SpanData {
      this.(parentSpanId := req.spanId, traceId := req.traceId, spanId := freshId, durationNs := elapsedNs)
    }
  }

  // ---------- the state ----------

  /** A span is referred to by the number of the event it came from. */
  datatype Request = Request(span: nat, seqNo: nat, sendTime: int)
  datatype Flow = Flow(queue: seq<Request>, seqCounter: nat, lastSend: Instant, lastRecv: Instant)
  datatype Waiting = Waiting(span: nat, since: int)

  /** Never is Go's zero time, which is further in the past than any timeout. */
  datatype Instant = Never | At(t: int)
  {
    predicate Stale(now: int, timeout: int) {
      Never? || now - t > timeout
    }
  }

  const EMPTY_FLOW := Flow([], 0, Never, Never)

  datatype Config = Config(maxInflight: int, timeout: int, handlerSet: bool)
  /** All counters are unbounded integers here; the program stores them modulo 2^64. */
  datatype Stats = Stats(total: int, processed: int, dropped: int, inflight: int, active: int)

  /** What happened to requests; kept for the proofs only, no step reads it. */
  datatype Fact =
    | MatchedInRecv(req: nat, resp: nat, elapsed: int)
    | MatchedLate(req: nat, resp: nat, elapsed: int)
    | Evicted(req: nat)
    | Closed(reqs: seq<nat>)
    | TimedOut(reqs: seq<nat>)
    | Overwritten(reqs: seq<nat>)

  datatype State = State(
    cfg: Config, spans: seq<SpanData>, pending: seq<Waiting>, conns: map<string, Flow>,
    stats: Stats, log: seq<nat>, hist: seq<Fact>)

  function Init(cfg: Config): State {
    State(cfg, [], [], map[], Stats(0, 0, 0, 0, 0), [], [])
  }

  function SpansOf(queue: seq<Request>): (ids: seq<nat>)
    ensures |ids| == |queue|
  {
    seq(|queue|, i requires 0 <= i < |queue| => queue[i].span)
  }

  function WaitingSpans(pending: seq<Waiting>): (ids: seq<nat>)
    ensures |ids| == |pending|
  {
    seq(|pending|, i requires 0 <= i < |pending| => pending[i].span)
  }

  /** Steps neither create spans (ProcessEvent apart) nor change the configuration. */
  predicate Keeps(s: State, s': State) {
    |s'.spans| == |s.spans| && s'.cfg == s.cfg
  }

  const NO_SPAN := SpanData("", "", "", "00000000000000000000000000000000", "", 0, map[])

  /** Following a span pointer. Every pointer in a reachable state is that of an existing span. */
  function Deref(spans: seq<SpanData>, i: nat): SpanData {
    if i < |spans| then spans[i] else NO_SPAN
  }

  /** Writing through a span pointer. */
  function Write(spans: seq<SpanData>, i: nat, data: SpanData): (r: seq<SpanData>)
    ensures |r| == |spans|
  {
    if i < |spans| then spans[i := data] else spans
  }

  // ---------- the handlers ----------

  /** Call the span handler, if one is set. */
  function Emit(s: State, i: nat): (s': State)
    ensures Keeps(s, s')
  {
    if s.cfg.handlerSet then
      s.(log := s.log + [i], stats := s.stats.(processed := s.stats.processed + 1))
    else s
  }

  function SetSpan(s: State, i: nat, data: SpanData): (s': State)
    ensures Keeps(s, s')
  {
    s.(spans := Write(s.spans, i, data))
  }

  /** handleConnect and handleAccept: a new flow replaces whatever the key held. */
  function Open(s: State, key: string): (s': State)
    ensures Keeps(s, s')
  {
    var s' := if key in s.conns then s.(hist := s.hist + [Overwritten(SpansOf(s.conns[key].queue))]) else s;
    s'.(conns := s.conns[key := EMPTY_FLOW], stats := s.stats.(active := s.stats.active + 1))
  }

  function GetOrCreateFlow(s: State, key: string): (s': State)
    ensures Keeps(s, s')
  {
    if key in s.conns then s
    else s.(conns := s.conns[key := EMPTY_FLOW], stats := s.stats.(active := s.stats.active + 1))
  }

  /** The oldest request gives way. */
  function DropOldest(s: State, key: string): (s': State)
    requires key in s.conns && s.conns[key].queue != []
    ensures Keeps(s, s')
  {
    var flow := s.conns[key];
    s.(conns := s.conns[key := flow.(queue := flow.queue[1..])],
       stats := s.stats.(dropped := s.stats.dropped + 1),
       hist := s.hist + [Evicted(flow.queue[0].span)])
  }

  function EvictIfFull(s: State, key: string): (s': State)
    requires key in s.conns
    ensures Keeps(s, s')
  {
    var queue := s.conns[key].queue;
    if |queue| >= s.cfg.maxInflight && |queue| > 0 then Emit(DropOldest(s, key), queue[0].span) else s
  }

  function Enqueue(s: State, i: nat, key: string, now: int): (s': State)
    requires key in s.conns
    ensures Keeps(s, s')
  {
    var flow := s.conns[key];
    var seqNo := flow.seqCounter + 1;
    var s' := s.(conns := s.conns[key := flow.(queue := flow.queue + [Request(i, seqNo, now)], seqCounter := seqNo)],
                 stats := s.stats.(inflight := s.stats.inflight + 1));
    SetSpan(s', i, Deref(s.spans, i).Tagged("request_seq", Number(seqNo)))
  }

  function TouchSend(s: State, key: string, now: int): (s': State)
    requires key in s.conns
    ensures Keeps(s, s')
  {
    s.(conns := s.conns[key := s.conns[key].(lastSend := At(now))])
  }

  function TouchRecv(s: State, key: string, now: int): (s': State)
    requires key in s.conns
    ensures Keeps(s, s')
  {
    s.(conns := s.conns[key := s.conns[key].(lastRecv := At(now))])
  }

  function SendRequest(s: State, i: nat, key: string, now: int): (s': State)
    requires key in s.conns
    ensures Keeps(s, s')
  {
    Enqueue(EvictIfFull(SetSpan(s, i, Deref(s.spans, i).Named()), key), i, key, now)
  }

  function HandleSend(s: State, i: nat, key: string, isRequest: bool, now: int): (s': State)
    ensures Keeps(s, s')
  {
    var s1 := TouchSend(GetOrCreateFlow(s, key), key, now);
    if isRequest then SendRequest(s1, i, key, now) else s1
  }

  /** What a match writes into the response i and into its request. */
  function Answer(spans: seq<SpanData>, i: nat, req: Request, elapsed: int, late: bool): (r: seq<SpanData>)
    ensures |r| == |spans|
  {
    var answered := Deref(spans, i).Answering(Deref(spans, req.span), elapsed);
    var s1 := Write(spans, i, if late then answered else answered.Tagged("request_seq", Number(req.seqNo)));
    var timed := Deref(s1, req.span).(durationNs := elapsed);
    Write(s1, req.span, if late then timed else timed.Tagged("response_seq", Number(req.seqNo)))
  }

  /** The front request leaves its queue. */
  function TakeFront(s: State, key: string, fact: Fact): (s': State)
    requires key in s.conns && s.conns[key].queue != []
    ensures Keeps(s, s')
  {
    var flow := s.conns[key];
    s.(conns := s.conns[key := flow.(queue := flow.queue[1..])],
       stats := s.stats.(inflight := s.stats.inflight - 1),
       hist := s.hist + [fact])
  }

  /** How a match is remembered; late is the matching done by tryCorrelate. */
  function MatchFact(req: nat, i: nat, elapsed: int, late: bool): Fact {
    if late then MatchedLate(req, i, elapsed) else MatchedInRecv(req, i, elapsed)
  }

  /** The front request and span i become a pair. */
  function PairFront(s: State, i: nat, key: string, now: int, late: bool): (s': State)
    requires key in s.conns && s.conns[key].queue != []
    ensures Keeps(s, s')
  {
    var req := s.conns[key].queue[0];
    var s1 := TakeFront(s, key, MatchFact(req.span, i, now - req.sendTime, late));
    s1.(spans := Answer(s1.spans, i, req, now - req.sendTime, late))
  }

  function MatchFront(s: State, i: nat, key: string, now: int, late: bool): (s': State)
    requires key in s.conns && s.conns[key].queue != []
    ensures Keeps(s, s')
  {
    Emit(Emit(PairFront(s, i, key, now, late), s.conns[key].queue[0].span), i)
  }

  /** A response answers the request at the front of its flow, or is an orphan. */
  function Respond(s: State, i: nat, key: string, now: int): (s': State)
    requires key in s.conns
    ensures Keeps(s, s')
  {
    if s.conns[key].queue != [] then
      var s1 := MatchFront(s, i, key, now, false);
      SetSpan(s1, i, Deref(s1.spans, i).Tagged("matched", Flag))
    else
      SetSpan(s, i, Deref(s.spans, i).Named().Tagged("orphan_response", Flag))
  }

  function HandleRecv(s: State, i: nat, key: string, isResponse: bool, now: int): (s': State)
    ensures Keeps(s, s')
  {
    var s1 := TouchRecv(GetOrCreateFlow(s, key), key, now);
    if isResponse then Respond(s1, i, key, now) else s1
  }

  /** Tag and emit the listed spans one after the other. A closing connection tags only what it emits. */
  function EmitAll(s: State, ids: seq<nat>, tag: string, onlyIfHandled: bool): (s': State)
    ensures Keeps(s, s')
    ensures s'.pending == s.pending && s'.conns == s.conns && s'.hist == s.hist
    decreases |ids|
  {
    if ids == [] then s
    else
      var s1 := if onlyIfHandled && !s.cfg.handlerSet then s else SetSpan(s, ids[0], Deref(s.spans, ids[0]).Tagged(tag, Flag));
      EmitAll(Emit(s1, ids[0]), ids[1..], tag, onlyIfHandled)
  }

  /** Take a flow with these requests out of the map and out of the gauges. */
  function Forget(s: State, key: string, ids: seq<nat>, closing: bool): (s': State)
    ensures Keeps(s, s')
  {
    s.(conns := s.conns - {key},
       stats := s.stats.(inflight := s.stats.inflight - |ids|, active := s.stats.active - 1),
       hist := s.hist + [if closing then Closed(ids) else TimedOut(ids)])
  }

  /** Emit what a flow still holds and forget the flow. */
  function DropFlow(s: State, key: string, closing: bool): (s': State)
    requires key in s.conns
    ensures Keeps(s, s')
  {
    var ids := SpansOf(s.conns[key].queue);
    Forget(EmitAll(s, ids, if closing then "connection_closed" else "connection_timeout", closing), key, ids, closing)
  }

  function HandleClose(s: State, key: string): (s': State)
    ensures Keeps(s, s')
  {
    if key in s.conns then DropFlow(s, key, true) else s
  }

  /** Drop the first pending entry for span i, if there is one. */
  function WithoutSpan(pending: seq<Waiting>, i: nat): seq<Waiting> {
    if pending == [] then []
    else if pending[0].span == i then pending[1..]
    else [pending[0]] + WithoutSpan(pending[1..], i)
  }

  function TryCorrelate(s: State, i: nat, key: string, e: Event, now: int): (s': State)
    ensures Keeps(s, s')
  {
    var s1 := GetOrCreateFlow(s, key);
    if e.eventType == EVENT_RECV_FROM && s1.conns[key].queue != [] then
      var req := s1.conns[key].queue[0].span;
      var s2 := MatchFront(s1, i, key, now, true);
      s2.(pending := WithoutSpan(WithoutSpan(s2.pending, req), i))
    else s1
  }

  function Dispatch(s: State, i: nat, key: string, e: Event, now: int): (s': State)
    ensures Keeps(s, s')
  {
    if e.eventType == EVENT_CONNECT || e.eventType == EVENT_ACCEPT then Open(s, key)
    else if e.eventType == EVENT_SEND_TO then HandleSend(s, i, key, IsRequestPayload(e), now)
    else if e.eventType == EVENT_RECV_FROM then HandleRecv(s, i, key, IsResponsePayload(e), now)
    else if e.eventType == EVENT_CLOSE then HandleClose(s, key)
    else s
  }

  /** The end of ProcessEvent: a named span is emitted, an unnamed one waits. */
  function Conclude(s: State, i: nat, key: string, e: Event, now: int): (s': State)
    ensures Keeps(s, s')
  {
    if Deref(s.spans, i).traceId != "" then Emit(s, i)
    else TryCorrelate(s.(pending := s.pending + [Waiting(i, now)]), i, key, e, now)
  }

  function Arrived(s: State, data: SpanData): State {
    s.(spans := s.spans + [data], stats := s.stats.(total := s.stats.total + 1))
  }

  /** ProcessEvent once the span (data, after conversion and protocol parsing) and its key are there. */
  function HandleEvent(s: State, e: Event, key: string, data: SpanData, now: int): (s': State)
    ensures |s'.spans| == |s.spans| + 1 && s'.cfg == s.cfg
  {
    var i := |s.spans|;
    Conclude(Dispatch(Arrived(s, data), i, key, e, now), i, key, e, now)
  }

  function ProcessEvent(s: State, e: Event, data: SpanData, now: int): (s': State)
    ensures |s'.spans| == |s.spans| + 1 && s'.cfg == s.cfg
  {
    HandleEvent(s, e, KeyOf(e), data, now)
  }

  // ---------- the cleanup tick ----------

  /** What the scan does with one expired entry. */
  function ExpireOne(s: State, j: nat): (s': State)
    requires j < |s.pending|
    ensures Keeps(s, s') && |s'.pending| == |s.pending| - 1
  {
    var i := s.pending[j].span;
    var s1 := Emit(SetSpan(s, i, Deref(s.spans, i).Named().Tagged("timeout", Flag)), i);
    s1.(pending := s.pending[..j] + s.pending[j + 1..])
  }

  /** The scan of the pending list from position j on. */
  function ExpirePending(s: State, j: nat, now: int): (s': State)
    requires j <= |s.pending|
    ensures Keeps(s, s')
    decreases |s.pending| - j
  {
    if j == |s.pending| then s
    else if now - s.pending[j].since > s.cfg.timeout then ExpirePending(ExpireOne(s, j), j, now)
    else ExpirePending(s, j + 1, now)
  }

  predicate FlowExpired(s: State, key: string, now: int) {
    key in s.conns && s.conns[key].lastSend.Stale(now, s.cfg.timeout) && s.conns[key].lastRecv.Stale(now, s.cfg.timeout)
  }

  /** The connections are visited in the order in which the map happens to be iterated. */
  function ExpireFlows(s: State, order: seq<string>, now: int): (s': State)
    ensures Keeps(s, s')
    decreases |order|
  {
    if order == [] then s
    else
      var s1 := if FlowExpired(s, order[0], now) then DropFlow(s, order[0], false) else s;
      ExpireFlows(s1, order[1..], now)
  }

  /** What one more visited key does. */
  lemma {:induction false} ExpireFlowsSnoc(s: State, order: seq<string>, key: string, now: int)
    ensures var s1 := ExpireFlows(s, order, now);
            ExpireFlows(s, order + [key], now) ==
            if FlowExpired(s1, key, now) then DropFlow(s1, key, false) else s1
    decreases |order|
  {
    if order == [] {
      assert [key][1..] == [];
    } else {
      var s1 := if FlowExpired(s, order[0], now) then DropFlow(s, order[0], false) else s;
      assert (order + [key])[1..] == order[1..] + [key];
      ExpireFlowsSnoc(s1, order[1..], key, now);
    }
  }

  function CleanupExpired(s: State, order: seq<string>, now: int): (s': State)
    ensures Keeps(s, s')
  {
    ExpireFlows(ExpirePending(s, 0, now), order, now)
  }

  // ---------- runs ----------

  datatype Input =
    | Arrive(e: Event, data: SpanData, now: int)
    | Tick(order: seq<string>, now: int)

  function Step(s: State, input: Input): (s': State)
    ensures s'.cfg == s.cfg
  {
    match input
    case Arrive(e, data, now) => ProcessEvent(s, e, data, now)
    case Tick(order, now) => CleanupExpired(s, order, now)
  }

  /** The state after the inputs, the last of which came last. */
  function Run(cfg: Config, inputs: seq<Input>): (s: State)
    ensures s.cfg == cfg
  {
    if inputs == [] then Init(cfg)
    else
      var before := Run(cfg, inputs[..|inputs| - 1]);
      Step(before, inputs[|inputs| - 1])
  }
}
