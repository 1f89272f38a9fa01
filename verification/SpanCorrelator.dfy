/** The correlator as the program has it: flows are shared objects updated in place, and the handlers
    change one field after the other. Spans live in a table, and a pointer to a span is its index there,
    so that everyone who holds the pointer sees an update.
    Every operation is proved to do what CorrelatorModel says. */
module SpanCorrelator {
  import opened CorrelatorModel

  class ConnectionFlow {
    var inflightReqs: seq<Request>
    var seqCounter: nat
    var lastSend: Instant
    var lastRecv: Instant

    constructor ()
      ensures Value() == EMPTY_FLOW
    {
      inflightReqs, seqCounter, lastSend, lastRecv := [], 0, Never, Never;
    }

    function Value(): Flow
      reads this
    {
      Flow(inflightReqs, seqCounter, lastSend, lastRecv)
    }
  }

  /** The flows in the map are distinct objects holding the given values. */
  ghost predicate Represents(connections: map<string, ConnectionFlow>, conns: map<string, Flow>)
    reads connections.Values
  {
    && connections.Keys == conns.Keys
    && (forall k :: k in connections ==> connections[k].Value() == conns[k])
    && (forall k, l :: k in connections && l in connections && k != l ==> connections[k] != connections[l])
  }

  lemma AddFlow(connections: map<string, ConnectionFlow>, conns: map<string, Flow>, key: string, flow: ConnectionFlow)
    requires Represents(connections, conns) && flow !in connections.Values && flow.Value() == EMPTY_FLOW
    ensures Represents(connections[key := flow], conns[key := EMPTY_FLOW])
  {
  }

  lemma RemoveFlow(connections: map<string, ConnectionFlow>, conns: map<string, Flow>, key: string)
    requires Represents(connections, conns)
    ensures Represents(connections - {key}, conns - {key})
  {
  }

  /** Under a key both have the same flow. */
  lemma Represented(connections: map<string, ConnectionFlow>, conns: map<string, Flow>, key: string)
    requires Represents(connections, conns)
    ensures key in connections <==> key in conns
    ensures key in connections ==> connections[key].Value() == conns[key]
  {
  }

  class Correlator {
    const maxInflight: int
    const timeout: int
    const handlerSet: bool
    var spans: seq<SpanData>
    var pendingRequests: seq<Waiting>
    var connections: map<string, ConnectionFlow>
    var output: seq<nat>
    var stats: Stats

    ghost var Repr: set<ConnectionFlow>
    ghost var conns: map<string, Flow>
    ghost var hist: seq<Fact>

    /** The model's state that this object represents. */
    ghost function Model(): State
      reads this
    {
      State(Config(maxInflight, timeout, handlerSet), spans, pendingRequests, conns, stats, output, hist)
    }

    ghost predicate Valid()
      reads this`connections, this`conns, this`Repr, Repr
    {
      connections.Values <= Repr && Represents(connections, conns)
    }

    constructor (maxInflight: int, timeout: int, handlerSet: bool)
      ensures Valid() && Model() == Init(Config(maxInflight, timeout, handlerSet))
    {
      this.maxInflight, this.timeout, this.handlerSet := maxInflight, timeout, handlerSet;
      spans, pendingRequests, connections, output := [], [], map[], [];
      stats := Stats(0, 0, 0, 0, 0);
      Repr, conns, hist := {}, map[], [];
    }

    /** Call the span handler, if one is set, and count the span. */
    method CallHandler(i: nat)
      requires Valid()
      modifies this`stats, this`output
      ensures Valid() && Model() == Emit(old(Model()), i)
    {
      if handlerSet {
        output := output + [i];
        stats := stats.(processed := stats.processed + 1);
      }
    }

    /** span.SetTag through the pointer i. */
    method SetTag(i: nat, name: string, tag: Tag)
      requires Valid()
      modifies this`spans
      ensures Valid() && Model() == SetSpan(old(Model()), i, Deref(old(spans), i).Tagged(name, tag))
    {
      var span := Deref(spans, i);
      spans := Write(spans, i, span.(tags := span.tags[name := tag]));
    }

    /** Give an unnamed span its derived trace id and a span id. */
    method NameIfUnnamed(i: nat)
      requires Valid()
      modifies this`spans
      ensures Valid() && Model() == SetSpan(old(Model()), i, Deref(old(spans), i).Named())
    {
      var span := Deref(spans, i);
      if span.traceId == "" {
        spans := Write(spans, i, span.(traceId := span.derivedId));
        spans := Write(spans, i, Deref(spans, i).(spanId := span.freshId));
      }
    }

    method NameAndTag(i: nat, name: string)
      requires Valid()
      modifies this`spans
      ensures Valid() && Model() == SetSpan(old(Model()), i, Deref(old(spans), i).Named().Tagged(name, Flag))
    {
      NameIfUnnamed(i);
      SetTag(i, name, Flag);
    }

    /** Put a new empty flow under a key. */
    method InstallFlow(key: string) returns (flow: ConnectionFlow)
      requires Valid()
      modifies this`Repr, this`connections, this`conns
      ensures Valid() && conns == old(conns)[key := EMPTY_FLOW]
      ensures key in connections && connections[key] == flow
      ensures fresh(flow) && Repr == old(Repr) + {flow}
    {
      flow := new ConnectionFlow();
      AddFlow(connections, conns, key, flow);
      Repr := Repr + {flow};
      connections := connections[key := flow];
      conns := conns[key := EMPTY_FLOW];
    }

    /** handleConnect and handleAccept. */
    method Open(key: string)
      requires Valid()
      modifies this`Repr, this`connections, this`stats, this`conns, this`hist
      ensures Valid() && Model() == CorrelatorModel.Open(old(Model()), key)
      ensures fresh(Repr - old(Repr))
    {
      hide Represents;
      Represented(connections, conns, key);
      if key in connections {
        hist := hist + [Overwritten(SpansOf(conns[key].queue))];
      }
      stats := stats.(active := stats.active + 1);
      var flow := InstallFlow(key);
    }

    method GetOrCreateFlow(key: string) returns (flow: ConnectionFlow)
      requires Valid()
      modifies this`Repr, this`connections, this`stats, this`conns
      ensures Valid() && Model() == CorrelatorModel.GetOrCreateFlow(old(Model()), key)
      ensures key in connections && connections[key] == flow
      ensures fresh(Repr - old(Repr))
    {
      hide Represents;
      Represented(connections, conns, key);
      if key in connections {
        flow := connections[key];
      } else {
        flow := InstallFlow(key);
        stats := stats.(active := stats.active + 1);
      }
    }

    /** Put a value into the flow object of a key. */
    method SetFlow(flow: ConnectionFlow, ghost key: string, f: Flow)
      requires Valid() && key in connections && connections[key] == flow
      modifies flow, this`conns
      ensures Valid() && conns == old(conns)[key := f] && flow.Value() == f
    {
      flow.inflightReqs := f.queue;
      flow.seqCounter := f.seqCounter;
      flow.lastSend := f.lastSend;
      flow.lastRecv := f.lastRecv;
      conns := conns[key := f];
    }

    method EvictIfFull(flow: ConnectionFlow, ghost key: string)
      requires Valid() && key in connections && connections[key] == flow
      modifies flow, this`stats, this`output, this`conns, this`hist
      ensures Valid() && Model() == CorrelatorModel.EvictIfFull(old(Model()), key)
    {
      hide Represents, CorrelatorModel.Emit;
      Represented(connections, conns, key);
      if |flow.inflightReqs| >= maxInflight && |flow.inflightReqs| > 0 {
        var oldest := flow.inflightReqs[0].span;
        SetFlow(flow, key, flow.Value().(queue := flow.inflightReqs[1..]));
        stats := stats.(dropped := stats.dropped + 1);
        hist := hist + [Evicted(oldest)];
        assert Model() == DropOldest(old(Model()), key);
        CallHandler(oldest);
      }
    }

    method Enqueue(i: nat, flow: ConnectionFlow, ghost key: string, now: int)
      requires Valid() && key in connections && connections[key] == flow
      modifies flow, this`spans, this`stats, this`conns
      ensures Valid() && Model() == CorrelatorModel.Enqueue(old(Model()), i, key, now)
    {
      hide Represents, SetSpan;
      Represented(connections, conns, key);
      var seqNo := flow.seqCounter + 1;
      SetFlow(flow, key, flow.Value().(queue := flow.inflightReqs + [Request(i, seqNo, now)], seqCounter := seqNo));
      stats := stats.(inflight := stats.inflight + 1);
      SetTag(i, "request_seq", Number(seqNo));
    }

    method SendRequest(i: nat, flow: ConnectionFlow, ghost key: string, now: int)
      requires Valid() && key in connections && connections[key] == flow
      modifies flow, this`spans, this`stats, this`output, this`conns, this`hist
      ensures Valid() && Model() == CorrelatorModel.SendRequest(old(Model()), i, key, now)
    {
      NameIfUnnamed(i);
      EvictIfFull(flow, key);
      Enqueue(i, flow, key, now);
    }

    method HandleSend(i: nat, key: string, isRequest: bool, now: int)
      requires Valid()
      modifies this, Repr
      ensures Valid() && Model() == CorrelatorModel.HandleSend(old(Model()), i, key, isRequest, now)
      ensures fresh(Repr - old(Repr))
    {
      hide Represents, CorrelatorModel.GetOrCreateFlow, CorrelatorModel.SendRequest;
      var flow := GetOrCreateFlow(key);
      Represented(connections, conns, key);
      SetFlow(flow, key, flow.Value().(lastSend := At(now)));
      if isRequest {
        SendRequest(i, flow, key, now);
      }
    }

    method TakeFront(flow: ConnectionFlow, ghost key: string, ghost fact: Fact)
      requires Valid()
      requires key in connections && connections[key] == flow && flow.inflightReqs != []
      modifies flow, this`stats, this`conns, this`hist
      ensures Valid() && Model() == CorrelatorModel.TakeFront(old(Model()), key, fact)
    {
      hide Represents;
      Represented(connections, conns, key);
      SetFlow(flow, key, flow.Value().(queue := flow.inflightReqs[1..]));
      stats := stats.(inflight := stats.inflight - 1);
      hist := hist + [fact];
    }

    /** Take the front request off the flow and pair it with span i. */
    method PairFront(i: nat, flow: ConnectionFlow, ghost key: string, now: int, late: bool)
      requires Valid()
      requires key in connections && connections[key] == flow && flow.inflightReqs != []
      modifies flow, this`spans, this`stats, this`conns, this`hist
      ensures Valid() && Model() == CorrelatorModel.PairFront(old(Model()), i, key, now, late)
    {
      hide Represents, Answer, MatchFact;
      Represented(connections, conns, key);
      var req := flow.inflightReqs[0];
      TakeFront(flow, key, MatchFact(req.span, i, now - req.sendTime, late));
      AnswerRequest(i, req, now - req.sendTime, late);
    }

    /** The common part of handleRecv and tryCorrelate. */
    method MatchFront(i: nat, flow: ConnectionFlow, ghost key: string, now: int, late: bool)
      requires Valid()
      requires key in connections && connections[key] == flow && flow.inflightReqs != []
      modifies flow, this`spans, this`stats, this`output, this`conns, this`hist
      ensures Valid() && Model() == CorrelatorModel.MatchFront(old(Model()), i, key, now, late)
    {
      hide Represents, CorrelatorModel.PairFront, CorrelatorModel.Emit;
      Represented(connections, conns, key);
      var req := flow.inflightReqs[0].span;
      PairFront(i, flow, key, now, late);
      CallHandler(req);
      CallHandler(i);
    }

    /** The fields and tags a match writes. */
    method AnswerRequest(i: nat, req: Request, elapsed: int, late: bool)
      modifies this`spans
      ensures spans == Answer(old(spans), i, req, elapsed, late)
    {
      var r := Deref(spans, req.span);
      spans := Write(spans, i, Deref(spans, i).(parentSpanId := r.spanId, traceId := r.traceId));
      spans := Write(spans, i, Deref(spans, i).(spanId := Deref(spans, i).freshId, durationNs := elapsed));
      if !late {
        spans := Write(spans, i, Deref(spans, i).Tagged("request_seq", Number(req.seqNo)));
      }
      spans := Write(spans, req.span, Deref(spans, req.span).(durationNs := elapsed));
      if !late {
        spans := Write(spans, req.span, Deref(spans, req.span).Tagged("response_seq", Number(req.seqNo)));
      }
    }

    method Respond(i: nat, flow: ConnectionFlow, ghost key: string, now: int)
      requires Valid() && key in connections && connections[key] == flow
      modifies flow, this`spans, this`stats, this`output, this`conns, this`hist
      ensures Valid() && Model() == CorrelatorModel.Respond(old(Model()), i, key, now)
    {
      hide Represents, CorrelatorModel.MatchFront, SetSpan;
      Represented(connections, conns, key);
      if flow.inflightReqs != [] {
        MatchFront(i, flow, key, now, false);
        SetTag(i, "matched", Flag);
      } else {
        NameAndTag(i, "orphan_response");
      }
    }

    method HandleRecv(i: nat, key: string, isResponse: bool, now: int)
      requires Valid()
      modifies this, Repr
      ensures Valid() && Model() == CorrelatorModel.HandleRecv(old(Model()), i, key, isResponse, now)
      ensures fresh(Repr - old(Repr))
    {
      hide Represents, CorrelatorModel.GetOrCreateFlow, CorrelatorModel.Respond;
      var flow := GetOrCreateFlow(key);
      Represented(connections, conns, key);
      SetFlow(flow, key, flow.Value().(lastRecv := At(now)));
      if isResponse {
        Respond(i, flow, key, now);
      }
    }

    /** Hand every request of a queue to the handler, tagged. */
    method EmitAll(queue: seq<Request>, tag: string, onlyIfHandled: bool)
      requires Valid()
      modifies this`spans, this`stats, this`output
      ensures Valid() && Model() == CorrelatorModel.EmitAll(old(Model()), SpansOf(queue), tag, onlyIfHandled)
    {
      ghost var ids := SpansOf(queue);
      for k := 0 to |queue|
        invariant Valid()
        invariant CorrelatorModel.EmitAll(Model(), ids[k..], tag, onlyIfHandled)
               == CorrelatorModel.EmitAll(old(Model()), ids, tag, onlyIfHandled)
      {
        assert ids[k..][0] == queue[k].span && ids[k..][1..] == ids[k + 1..];
        if handlerSet || !onlyIfHandled {
          SetTag(queue[k].span, tag, Flag);
        }
        CallHandler(queue[k].span);
      }
    }

    method Forget(key: string, queue: seq<Request>, closing: bool)
      requires Valid()
      modifies this`stats, this`connections, this`conns, this`hist
      ensures Valid() && Model() == CorrelatorModel.Forget(old(Model()), key, SpansOf(queue), closing)
      ensures connections == old(connections) - {key}
    {
      hide Represents, SpansOf;
      RemoveFlow(connections, conns, key);
      stats := stats.(inflight := stats.inflight - |queue|);
      stats := stats.(active := stats.active - 1);
      connections := connections - {key};
      conns := conns - {key};
      hist := hist + [if closing then Closed(SpansOf(queue)) else TimedOut(SpansOf(queue))];
    }

    method DropFlow(key: string, closing: bool)
      requires Valid() && key in connections
      modifies this`spans, this`stats, this`output, this`connections, this`conns, this`hist
      ensures Valid() && Model() == CorrelatorModel.DropFlow(old(Model()), key, closing)
      ensures connections == old(connections) - {key}
    {
      hide Represents, CorrelatorModel.EmitAll, CorrelatorModel.Forget, SpansOf;
      Represented(connections, conns, key);
      var queue := connections[key].inflightReqs;
      EmitAll(queue, if closing then "connection_closed" else "connection_timeout", closing);
      Forget(key, queue, closing);
    }

    method HandleClose(key: string)
      requires Valid()
      modifies this`spans, this`stats, this`output, this`connections, this`conns, this`hist
      ensures Valid() && Model() == CorrelatorModel.HandleClose(old(Model()), key)
    {
      hide Represents, CorrelatorModel.DropFlow;
      Represented(connections, conns, key);
      if key in connections {
        DropFlow(key, true);
      }
    }

    /** Scan the pending list and unlink the first entry for span i. */
    method RemoveFromPending(i: nat)
      requires Valid()
      modifies this`pendingRequests
      ensures Valid() && Model() == old(Model()).(pending := WithoutSpan(old(pendingRequests), i))
    {
      var p := pendingRequests;
      var k := 0;
      while k < |p| && p[k].span != i
        invariant k <= |p| && pendingRequests == p
        invariant p[..k] + WithoutSpan(p[k..], i) == WithoutSpan(p, i)
      {
        SkipOne(p, k, i);
        k := k + 1;
      }
      if k < |p| {
        assert p[k..][1..] == p[k + 1..];
        pendingRequests := p[..k] + p[k + 1..];
      } else {
        assert p[..k] + WithoutSpan(p[k..], i) == p;
      }
    }

    method TryCorrelate(i: nat, key: string, e: Event, now: int)
      requires Valid()
      modifies this, Repr
      ensures Valid() && Model() == CorrelatorModel.TryCorrelate(old(Model()), i, key, e, now)
      ensures fresh(Repr - old(Repr))
    {
      hide Represents, CorrelatorModel.GetOrCreateFlow, CorrelatorModel.MatchFront, WithoutSpan;
      var flow := GetOrCreateFlow(key);
      Represented(connections, conns, key);
      if e.eventType == EVENT_RECV_FROM && flow.inflightReqs != [] {
        var req := flow.inflightReqs[0].span;
        MatchFront(i, flow, key, now, true);
        RemoveFromPending(req);
        RemoveFromPending(i);
      }
    }

    /** data is the new span after conversion and protocol parsing. */
    method ProcessEvent(e: Event, data: SpanData, now: int)
      requires Valid()
      modifies this, Repr
      ensures Valid() && Model() == CorrelatorModel.ProcessEvent(old(Model()), e, data, now)
      ensures fresh(Repr - old(Repr))
    {
      var key := KeyOf(e);
      HandleEvent(e, key, data, now);
    }

    method HandleEvent(e: Event, key: string, data: SpanData, now: int)
      requires Valid()
      modifies this, Repr
      ensures Valid() && Model() == CorrelatorModel.HandleEvent(old(Model()), e, key, data, now)
      ensures fresh(Repr - old(Repr))
    {
      hide Represents, CorrelatorModel.Dispatch, CorrelatorModel.Conclude;
      stats := stats.(total := stats.total + 1);
      var i := |spans|;
      spans := spans + [data];
      assert Model() == Arrived(old(Model()), data);
      Dispatch(i, key, e, now);
      Conclude(i, key, e, now);
    }

    method Conclude(i: nat, key: string, e: Event, now: int)
      requires Valid()
      modifies this, Repr
      ensures Valid() && Model() == CorrelatorModel.Conclude(old(Model()), i, key, e, now)
      ensures fresh(Repr - old(Repr))
    {
      hide Represents, CorrelatorModel.TryCorrelate, CorrelatorModel.Emit, Deref;
      if Deref(spans, i).traceId != "" {
        CallHandler(i);
      } else {
        pendingRequests := pendingRequests + [Waiting(i, now)];
        TryCorrelate(i, key, e, now);
      }
    }

    method Dispatch(i: nat, key: string, e: Event, now: int)
      requires Valid()
      modifies this, Repr
      ensures Valid() && Model() == CorrelatorModel.Dispatch(old(Model()), i, key, e, now)
      ensures fresh(Repr - old(Repr))
    {
      hide Represents, CorrelatorModel.Open, CorrelatorModel.HandleSend, CorrelatorModel.HandleRecv, CorrelatorModel.HandleClose,
        IsRequestPayload, IsResponsePayload;
      if e.eventType == EVENT_CONNECT || e.eventType == EVENT_ACCEPT {
        Open(key);
      } else if e.eventType == EVENT_SEND_TO {
        HandleSend(i, key, IsRequestPayload(e), now);
      } else if e.eventType == EVENT_RECV_FROM {
        HandleRecv(i, key, IsResponsePayload(e), now);
      } else if e.eventType == EVENT_CLOSE {
        HandleClose(key);
      }
    }

    method ExpireOne(j: nat)
      requires Valid() && j < |pendingRequests|
      modifies this`spans, this`stats, this`output, this`pendingRequests
      ensures Valid() && Model() == CorrelatorModel.ExpireOne(old(Model()), j)
    {
      hide Represents, CorrelatorModel.Emit, SetSpan, Deref;
      var i := pendingRequests[j].span;
      NameAndTag(i, "timeout");
      CallHandler(i);
      pendingRequests := pendingRequests[..j] + pendingRequests[j + 1..];
    }

    /** The first half of cleanupExpired. */
    method ExpirePending(now: int)
      requires Valid()
      modifies this`spans, this`stats, this`output, this`pendingRequests
      ensures Valid() && Model() == CorrelatorModel.ExpirePending(old(Model()), 0, now)
    {
      hide Represents, CorrelatorModel.ExpireOne;
      var j := 0;
      while j < |pendingRequests|
        invariant j <= |pendingRequests| && Valid()
        invariant CorrelatorModel.ExpirePending(Model(), j, now) == CorrelatorModel.ExpirePending(old(Model()), 0, now)
        decreases |pendingRequests| - j
      {
        if now - pendingRequests[j].since > timeout {
          ExpireOne(j);
        } else {
          j := j + 1;
        }
      }
    }

    /** The second half of cleanupExpired: the map is iterated in an arbitrary order. */
    method ExpireFlows(now: int) returns (ghost order: seq<string>)
      requires Valid()
      modifies this`spans, this`stats, this`output, this`connections, this`conns, this`hist
      ensures Valid() && Model() == CorrelatorModel.ExpireFlows(old(Model()), order, now)
      ensures multiset(order) == multiset(old(connections.Keys))
    {
      assert CorrelatorModel.ExpireFlows(Model(), [], now) == Model();
      hide Represents, CorrelatorModel.DropFlow, CorrelatorModel.ExpireFlows;
      order := [];
      var todo := connections.Keys;
      while todo != {}
        invariant Valid()
        invariant Model() == CorrelatorModel.ExpireFlows(old(Model()), order, now)
        invariant todo <= connections.Keys && todo <= old(connections.Keys)
        invariant multiset(order) + multiset(todo) == multiset(old(connections.Keys))
        decreases |todo|
      {
        var key :| key in todo;
        VisitOne(order, todo, key, old(connections.Keys));
        ExpireFlowsSnoc(old(Model()), order, key, now);
        Represented(connections, conns, key);
        todo := todo - {key};
        order := order + [key];
        var flow := connections[key];
        if flow.lastSend.Stale(now, timeout) && flow.lastRecv.Stale(now, timeout) {
          DropFlow(key, false);
        }
      }
    }

    method CleanupExpired(now: int) returns (ghost order: seq<string>)
      requires Valid()
      modifies this`spans, this`stats, this`output, this`pendingRequests, this`connections, this`conns, this`hist
      ensures Valid() && Model() == CorrelatorModel.CleanupExpired(old(Model()), order, now)
      ensures multiset(order) == multiset(old(connections.Keys))
    {
      ExpirePending(now);
      order := ExpireFlows(now);
    }
  }

  lemma SkipOne(p: seq<Waiting>, k: nat, i: nat)
    requires k < |p| && p[k].span != i
    ensures p[..k] + WithoutSpan(p[k..], i) == p[..k + 1] + WithoutSpan(p[k + 1..], i)
  {
    assert p[k..][1..] == p[k + 1..];
    assert p[..k + 1] == p[..k] + [p[k]];
  }

  lemma VisitOne(order: seq<string>, todo: set<string>, key: string, keys: set<string>)
    requires key in todo && multiset(order) + multiset(todo) == multiset(keys)
    ensures multiset(order + [key]) + multiset(todo - {key}) == multiset(keys)
  {
  }
}
