/** Who is matched with whom, how long it took, and who is timed out: told from the inputs. */
module CorrelatorTimes {
  import opened Options
  import opened Bytes
  import opened CorrelatorModel
  import opened CorrelatorAccounting
  import opened CorrelatorEmission
  import opened CorrelatorReference

  lemma EventsKept(inputs: seq<Input>, input: Input, i: nat)
    requires i < Arrivals(inputs)
    ensures i < Arrivals(inputs + [input]) && EventOf(inputs + [input], i) == EventOf(inputs, i)
  {
    assert (inputs + [input])[..|inputs|] == inputs;
  }

  lemma NewEvent(inputs: seq<Input>, e: Event, data: SpanData, now: int)
    ensures var all := inputs + [Arrive(e, data, now)]; Arrivals(all) == Arrivals(inputs) + 1 && EventOf(all, Arrivals(inputs)) == e
  {
    assert (inputs + [Arrive(e, data, now)])[..|inputs|] == inputs;
  }

  // ---------- matches ----------

  predicate Increasing(queue: seq<nat>) {
    forall i, j :: 0 <= i < j < |queue| ==> queue[i] < queue[j]
  }

  /** Span i belongs to a request of this connection. */
  predicate Requested(inputs: seq<Input>, key: string, i: nat) {
    i < Arrivals(inputs) && IsRequest(EventOf(inputs, i)) && KeyOf(EventOf(inputs, i)) == key
  }

  /** A match is between a request and a later receive of the same connection, and takes the time between them. */
  predicate Paired(inputs: seq<Input>, f: Fact) {
    IsMatch(f) ==>
      && f.req < f.resp < Arrivals(inputs)
      && IsRequest(EventOf(inputs, f.req)) && KeyOf(EventOf(inputs, f.req)) == KeyOf(EventOf(inputs, f.resp))
      && EventOf(inputs, f.resp).eventType == EVENT_RECV_FROM && (f.MatchedInRecv? <==> IsResponse(EventOf(inputs, f.resp)))
      && f.elapsed == ArrivedAt(inputs, f.resp) - ArrivedAt(inputs, f.req)
  }

  lemma RequestedKept(inputs: seq<Input>, input: Input, key: string, i: nat)
    requires Requested(inputs, key, i)
    ensures Requested(inputs + [input], key, i)
  {
    EventsKept(inputs, input, i);
  }

  lemma PairedKept(inputs: seq<Input>, input: Input, f: Fact)
    requires Paired(inputs, f)
    ensures Paired(inputs + [input], f)
  {
    if IsMatch(f) {
      EventsKept(inputs, input, f.req);
      EventsKept(inputs, input, f.resp);
      ArrivalsKept(inputs, input, f.req);
      ArrivalsKept(inputs, input, f.resp);
    }
  }

  /** The queue holds requests of the connection in the order of their arrival. */
  predicate InOrder(inputs: seq<Input>, key: string, queue: seq<nat>) {
    Increasing(queue) && forall i <- queue :: Requested(inputs, key, i)
  }

  lemma InOrderTail(inputs: seq<Input>, key: string, queue: seq<nat>)
    requires InOrder(inputs, key, queue)
    ensures InOrder(inputs, key, Tail(queue))
  {
    hide Requested;
  }

  lemma InOrderLater(inputs: seq<Input>, input: Input, key: string, queue: seq<nat>)
    requires InOrder(inputs, key, queue)
    ensures InOrder(inputs + [input], key, queue)
  {
    hide Requested;
    forall i | i in queue
      ensures Requested(inputs + [input], key, i)
    {
      RequestedKept(inputs, input, key, i);
    }
  }

  lemma InOrderJoined(inputs: seq<Input>, e: Event, data: SpanData, now: int, queue: seq<nat>)
    requires InOrder(inputs, KeyOf(e), queue) && IsRequest(e)
    ensures InOrder(inputs + [Arrive(e, data, now)], KeyOf(e), queue + [Arrivals(inputs)])
  {
    hide KeyOf, IsRequestPayload, Arrivals;
    var i, all := Arrivals(inputs), inputs + [Arrive(e, data, now)];
    NewEvent(inputs, e, data, now);
    InOrderLater(inputs, Arrive(e, data, now), KeyOf(e), queue);
    forall j | 0 <= j < |queue|
      ensures queue[j] < i
    {
      assert queue[j] in queue;
    }
  }

  lemma EventInOrder(cfg: Config, c: Option<Conn>, inputs: seq<Input>, e: Event, data: SpanData, now: int)
    requires InOrder(inputs, KeyOf(e), Opened(c).queue)
    ensures InOrder(inputs + [Arrive(e, data, now)], KeyOf(e),
                    Opened(Concluded(Handled(cfg, c, e, Arrivals(inputs), now), e, data)).queue)
  {
    hide KeyOf, IsRequestPayload, IsResponsePayload, InOrder, Arrivals;
    var key, queue, all := KeyOf(e), Opened(c).queue, inputs + [Arrive(e, data, now)];
    NoneInOrder(all, key);
    InOrderLater(inputs, Arrive(e, data, now), key, queue);
    InOrderTail(inputs, key, queue);
    InOrderTail(all, key, queue);
    if IsRequest(e) {
      InOrderJoined(inputs, e, data, now, Room(queue, cfg.maxInflight));
    }
  }

  lemma NoneInOrder(inputs: seq<Input>, key: string)
    ensures InOrder(inputs, key, [])
  {
  }

  lemma {:induction false} QueueInOrder(cfg: Config, inputs: seq<Input>, key: string)
    ensures InOrder(inputs, key, Opened(Connection(cfg, inputs, key)).queue)
  {
    hide InOrder, Handled, Concluded, Visited, KeyOf;
    NoneInOrder(inputs, key);
    if inputs != [] {
      var n := |inputs| - 1;
      var before := inputs[..n];
      assert before + [inputs[n]] == inputs;
      QueueInOrder(cfg, before, key);
      var c := Connection(cfg, before, key);
      InOrderLater(before, inputs[n], key, Opened(c).queue);
      match inputs[n]
      case Arrive(e, data, now) =>
        if KeyOf(e) == key {
          EventInOrder(cfg, c, before, e, data, now);
        }
      case Tick(order, now) => VisitedIs(c, key, order, now, cfg.timeout);
    }
  }

  lemma VisitedIs(c: Option<Conn>, key: string, order: seq<string>, now: int, timeout: int)
    ensures Visited(c, key, order, now, timeout) == c || Visited(c, key, order, now, timeout) == None
  {
  }

  lemma NewPair(inputs: seq<Input>, e: Event, data: SpanData, now: int, req: nat, f: Fact)
    requires Requested(inputs, KeyOf(e), req) && e.eventType == EVENT_RECV_FROM
    requires f == if IsResponse(e) then MatchedInRecv(req, Arrivals(inputs), now - ArrivedAt(inputs, req))
                  else MatchedLate(req, Arrivals(inputs), now - ArrivedAt(inputs, req))
    ensures Paired(inputs + [Arrive(e, data, now)], f)
  {
    hide KeyOf, IsRequestPayload, IsResponsePayload, Arrivals, ArrivedAt;
    NewEvent(inputs, e, data, now);
    NewArrival(inputs, e, data, now);
    EventsKept(inputs, Arrive(e, data, now), req);
    ArrivalsKept(inputs, Arrive(e, data, now), req);
  }

  lemma EventPaired(cfg: Config, c: Option<Conn>, inputs: seq<Input>, e: Event, data: SpanData, now: int, f: Fact)
    requires InOrder(inputs, KeyOf(e), Opened(c).queue)
    requires f in HandledFacts(cfg, c, inputs, e, now) + LateFacts(Handled(cfg, c, e, Arrivals(inputs), now), inputs, e, data, now)
    ensures Paired(inputs + [Arrive(e, data, now)], f)
  {
    hide KeyOf, IsRequestPayload, IsResponsePayload, Requested, Paired, Arrivals, ArrivedAt, Increasing;
    var queue := Opened(c).queue;
    if IsMatch(f) {
      assert queue != [] && f.req == queue[0] && queue[0] in queue;
      NewPair(inputs, e, data, now, queue[0], f);
    } else {
      NoPair(inputs + [Arrive(e, data, now)], f);
    }
  }

  lemma NoPair(inputs: seq<Input>, f: Fact)
    requires !IsMatch(f)
    ensures Paired(inputs, f)
  {
  }

  lemma {:induction false} TickFactsAre(cfg: Config, inputs: seq<Input>, order: seq<string>, now: int)
    ensures forall f <- TickFacts(cfg, inputs, order, now) :: f.TimedOut?
  {
    hide Connection, Active;
    if order != [] {
      TickFactsAre(cfg, inputs, order[..|order| - 1], now);
    }
  }

  lemma {:induction false} HistoryPaired(cfg: Config, inputs: seq<Input>)
    ensures forall f <- History(cfg, inputs) :: Paired(inputs, f)
  {
    hide Paired, HandledFacts, LateFacts, TickFacts, Handled, Connection, KeyOf, InOrder;
    if inputs != [] {
      var n := |inputs| - 1;
      var before := inputs[..n];
      assert before + [inputs[n]] == inputs;
      HistoryPaired(cfg, before);
      forall f | f in History(cfg, inputs)
        ensures Paired(inputs, f)
      {
        if f in History(cfg, before) {
          PairedKept(before, inputs[n], f);
        } else {
          match inputs[n]
          case Arrive(e, data, now) =>
            QueueInOrder(cfg, before, KeyOf(e));
            EventPaired(cfg, Connection(cfg, before, KeyOf(e)), before, e, data, now, f);
          case Tick(order, now) =>
            TickFactsAre(cfg, before, order, now);
            NoPair(inputs, f);
        }
      }
    }
  }

  /** In every run a match is between the span of a request and that of a later receive under the same key, and both
      spans end up with the time between the two events as their duration. A match in handleRecv is with a response. */
  lemma {:induction false} MatchesTakeTheirTime(cfg: Config, inputs: seq<Input>, k: nat)
    ensures var s := Run(cfg, inputs); k < |s.hist| && IsMatch(s.hist[k]) ==>
              var req, resp := s.hist[k].req, s.hist[k].resp;
              && req < resp < |s.spans| == Arrivals(inputs)
              && s.spans[req].durationNs == s.spans[resp].durationNs == ArrivedAt(inputs, resp) - ArrivedAt(inputs, req)
              && IsRequest(EventOf(inputs, req)) && EventOf(inputs, resp).eventType == EVENT_RECV_FROM
              && (s.hist[k].MatchedInRecv? <==> IsResponse(EventOf(inputs, resp)))
              && KeyOf(EventOf(inputs, req)) == KeyOf(EventOf(inputs, resp))
  {
    hide Run, AllAgree, History, IsRequestPayload, IsResponsePayload, KeyOf, ArrivedAt, Arrivals;
    var s := Run(cfg, inputs);
    RunSound(cfg, inputs);
    RunFollows(cfg, inputs);
    OneSpanPerArrival(cfg, inputs);
    HistoryPaired(cfg, inputs);
    if k < |s.hist| && IsMatch(s.hist[k]) {
      assert s.hist[k] in s.hist;
    }
  }

  // ---------- first in, first answered ----------

  /** All matches of this connection's requests so far were with requests older than this one. */
  predicate Newer(inputs: seq<Input>, hist: seq<Fact>, key: string, i: nat) {
    forall f <- hist :: IsMatch(f) && Requested(inputs, key, f.req) ==> f.req < i
  }

  ghost predicate AllNewer(inputs: seq<Input>, hist: seq<Fact>, key: string, queue: seq<nat>) {
    forall i <- queue :: Newer(inputs, hist, key, i)
  }

  /** Matches of one connection's requests are in the order of the requests. */
  ghost predicate Fair(inputs: seq<Input>, hist: seq<Fact>) {
    forall k, l, key :: 0 <= k < l < |hist| && IsMatch(hist[k]) && IsMatch(hist[l]) &&
                        Requested(inputs, key, hist[k].req) && Requested(inputs, key, hist[l].req) ==>
                          hist[k].req < hist[l].req
  }

  lemma NewerLater(inputs: seq<Input>, input: Input, hist: seq<Fact>, key: string, i: nat)
    requires Newer(inputs, hist, key, i) && forall f <- hist :: Paired(inputs, f)
    ensures Newer(inputs + [input], hist, key, i)
  {
    forall f | f in hist && IsMatch(f) && Requested(inputs + [input], key, f.req)
      ensures f.req < i
    {
      EventsKept(inputs, input, f.req);
    }
  }

  lemma FairLater(inputs: seq<Input>, input: Input, hist: seq<Fact>)
    requires Fair(inputs, hist) && forall f <- hist :: Paired(inputs, f)
    ensures Fair(inputs + [input], hist)
  {
    hide IsRequestPayload, KeyOf;
    forall k, l, key | 0 <= k < l < |hist| && IsMatch(hist[k]) && IsMatch(hist[l]) &&
                       Requested(inputs + [input], key, hist[k].req) && Requested(inputs + [input], key, hist[l].req)
      ensures hist[k].req < hist[l].req
    {
      assert hist[k] in hist && hist[l] in hist;
      EventsKept(inputs, input, hist[k].req);
      EventsKept(inputs, input, hist[l].req);
      assert Requested(inputs, key, hist[k].req) && Requested(inputs, key, hist[l].req);
    }
  }

  /** One more fact: if it is a match, then with the oldest request of its connection. */
  lemma FairOneMore(inputs: seq<Input>, hist: seq<Fact>, f: Fact)
    requires Fair(inputs, hist)
    requires IsMatch(f) ==> forall key :: Requested(inputs, key, f.req) ==> Newer(inputs, hist, key, f.req)
    ensures Fair(inputs, hist + [f])
  {
    hide Requested, Newer;
    var more := hist + [f];
    forall k, l, key | 0 <= k < l < |more| && IsMatch(more[k]) && IsMatch(more[l]) &&
                       Requested(inputs, key, more[k].req) && Requested(inputs, key, more[l].req)
      ensures more[k].req < more[l].req
    {
      if l == |hist| {
        NewerThan(inputs, hist, key, f.req, k);
      }
    }
  }

  lemma NewerThan(inputs: seq<Input>, hist: seq<Fact>, key: string, i: nat, k: nat)
    requires Newer(inputs, hist, key, i) && k < |hist| && IsMatch(hist[k]) && Requested(inputs, key, hist[k].req)
    ensures hist[k].req < i
  {
    assert hist[k] in hist;
  }

  lemma {:induction false} FairNoMore(inputs: seq<Input>, hist: seq<Fact>, facts: seq<Fact>)
    requires Fair(inputs, hist) && forall f <- facts :: !IsMatch(f)
    ensures Fair(inputs, hist + facts)
    decreases |facts|
  {
    hide Fair;
    if facts == [] {
      assert hist + facts == hist;
    } else {
      var n := |facts| - 1;
      FairNoMore(inputs, hist, facts[..n]);
      assert facts[n] in facts;
      FairOneMore(inputs, hist + facts[..n], facts[n]);
      assert hist + facts[..n] + [facts[n]] == hist + facts;
    }
  }

  lemma NewerSame(inputs: seq<Input>, hist: seq<Fact>, facts: seq<Fact>, key: string, i: nat)
    requires Newer(inputs, hist, key, i)
    requires forall f <- facts :: IsMatch(f) && Requested(inputs, key, f.req) ==> f.req < i
    ensures Newer(inputs, hist + facts, key, i)
  {
    hide Requested;
  }

  /** An event's facts: at most one, unless it matches nothing. */
  lemma EventFactsAre(cfg: Config, c: Option<Conn>, inputs: seq<Input>, e: Event, data: SpanData, now: int)
    ensures var i := Arrivals(inputs); var queue := Opened(c).queue;
            var facts := HandledFacts(cfg, c, inputs, e, now) + LateFacts(Handled(cfg, c, e, i, now), inputs, e, data, now);
            && |facts| <= 1
            && (facts != [] && IsMatch(facts[0]) ==>
                  queue != [] && facts[0].req == queue[0] && Opened(Concluded(Handled(cfg, c, e, i, now), e, data)).queue == queue[1..])
  {
    hide IsRequestPayload, IsResponsePayload, ArrivedAt;
  }

  /** What is queued after an event was queued before, or is the event's own span. */
  lemma QueueFrom(cfg: Config, c: Option<Conn>, e: Event, data: SpanData, i: nat, now: int)
    ensures forall j <- Opened(Concluded(Handled(cfg, c, e, i, now), e, data)).queue :: j == i || j in Opened(c).queue
  {
    hide IsRequestPayload, IsResponsePayload;
  }

  lemma NewerAtEvent(cfg: Config, before: seq<Input>, e: Event, data: SpanData, now: int, key: string)
    requires forall f <- History(cfg, before) :: Paired(before, f)
    requires AllNewer(before, History(cfg, before), key, Opened(Connection(cfg, before, key)).queue)
    ensures var all := before + [Arrive(e, data, now)];
            AllNewer(all, History(cfg, all), key, Opened(Connection(cfg, all, key)).queue)
  {
    hide Handled, Concluded, HandledFacts, LateFacts, KeyOf, Paired, Requested, InOrder, IsRequestPayload, IsResponsePayload, Arrivals;
    var all, i := before + [Arrive(e, data, now)], Arrivals(before);
    assert all[..|before|] == before;
    var c := Connection(cfg, before, KeyOf(e));
    var hist, facts := History(cfg, before),
      HandledFacts(cfg, c, before, e, now) + LateFacts(Handled(cfg, c, e, i, now), before, e, data, now);
    var queue := Opened(Connection(cfg, all, key)).queue;
    EventFactsAre(cfg, c, before, e, data, now);
    QueueInOrder(cfg, before, KeyOf(e));
    QueueFrom(cfg, c, e, data, i, now);
    forall j | j in queue
      ensures Newer(all, hist + facts, key, j)
    {
      if KeyOf(e) == key && j == i {
        NewestNewer(before, hist, key);
      } else {
        assert j in Opened(Connection(cfg, before, key)).queue;
        assert Newer(before, hist, key, j);
      }
      NewerLater(before, Arrive(e, data, now), hist, key, j);
      forall f | f in facts && IsMatch(f) && Requested(all, key, f.req)
        ensures f.req < j
      {
        assert f == facts[0];
        FrontIsFirst(before, Arrive(e, data, now), KeyOf(e), Opened(c).queue, key, queue, j);
      }
      NewerSame(all, hist, facts, key, j);
    }
  }

  lemma NewestNewer(inputs: seq<Input>, hist: seq<Fact>, key: string)
    requires forall f <- hist :: Paired(inputs, f)
    ensures Newer(inputs, hist, key, Arrivals(inputs))
  {
    hide KeyOf, IsRequestPayload, IsResponsePayload;
  }

  /** The first in a queue belongs to no other connection, and is older than the rest. */
  lemma FrontIsFirst(inputs: seq<Input>, input: Input, key: string, queue: seq<nat>, key': string, rest: seq<nat>, j: nat)
    requires InOrder(inputs, key, queue) && queue != [] && Requested(inputs + [input], key', queue[0])
    requires key' == key ==> rest == queue[1..]
    requires j in rest
    ensures queue[0] < j
  {
    hide KeyOf, IsRequestPayload;
    assert queue[0] in queue;
    EventsKept(inputs, input, queue[0]);
    var k :| 0 <= k < |rest| && rest[k] == j;
    assert queue[k + 1] == j;
  }

  lemma {:induction false} RunNewer(cfg: Config, inputs: seq<Input>, key: string)
    ensures AllNewer(inputs, History(cfg, inputs), key, Opened(Connection(cfg, inputs, key)).queue)
  {
    hide AllNewer, Handled, Concluded, HandledFacts, LateFacts, TickFacts, Paired, KeyOf, Visited;
    if inputs == [] {
      NothingNewer(inputs, History(cfg, inputs), key);
    } else {
      var n := |inputs| - 1;
      var before := inputs[..n];
      assert before + [inputs[n]] == inputs;
      RunNewer(cfg, before, key);
      HistoryPaired(cfg, before);
      match inputs[n]
      case Arrive(e, data, now) => NewerAtEvent(cfg, before, e, data, now, key);
      case Tick(order, now) =>
        var c := Connection(cfg, before, key);
        VisitedIs(c, key, order, now, cfg.timeout);
        TickFactsAre(cfg, before, order, now);
        if Visited(c, key, order, now, cfg.timeout) == None {
          NothingNewer(inputs, History(cfg, inputs), key);
        } else {
          NewerAtTick(before, inputs[n], History(cfg, before), TickFacts(cfg, before, order, now), key, Opened(c).queue);
        }
    }
  }

  lemma NothingNewer(inputs: seq<Input>, hist: seq<Fact>, key: string)
    ensures AllNewer(inputs, hist, key, [])
  {
  }

  lemma NewerAtTick(inputs: seq<Input>, input: Input, hist: seq<Fact>, facts: seq<Fact>, key: string, queue: seq<nat>)
    requires AllNewer(inputs, hist, key, queue) && (forall f <- hist :: Paired(inputs, f)) && forall f <- facts :: f.TimedOut?
    ensures AllNewer(inputs + [input], hist + facts, key, queue)
  {
    hide Newer, Paired;
    forall j | j in queue
      ensures Newer(inputs + [input], hist + facts, key, j)
    {
      NewerLater(inputs, input, hist, key, j);
      NewerSame(inputs + [input], hist, facts, key, j);
    }
  }

  lemma {:induction false} RunFair(cfg: Config, inputs: seq<Input>)
    ensures Fair(inputs, History(cfg, inputs))
  {
    hide Fair, Handled, Concluded, HandledFacts, LateFacts, TickFacts, Paired, KeyOf, AllNewer, Connection;
    if inputs == [] {
      NothingFair(inputs);
    } else {
      var n := |inputs| - 1;
      var before := inputs[..n];
      assert before + [inputs[n]] == inputs;
      RunFair(cfg, before);
      HistoryPaired(cfg, before);
      FairLater(before, inputs[n], History(cfg, before));
      match inputs[n]
      case Arrive(e, data, now) =>
        var c := Connection(cfg, before, KeyOf(e));
        var facts := HandledFacts(cfg, c, before, e, now) + LateFacts(Handled(cfg, c, e, Arrivals(before), now), before, e, data, now);
        EventFactsAre(cfg, c, before, e, data, now);
        if facts == [] {
          FairNoMore(inputs, History(cfg, before), facts);
        } else {
          assert facts == [facts[0]];
          if IsMatch(facts[0]) {
            FrontNewer(cfg, before, inputs[n], KeyOf(e));
          }
          FairOneMore(inputs, History(cfg, before), facts[0]);
        }
      case Tick(order, now) =>
        TickFactsAre(cfg, before, order, now);
        FairNoMore(inputs, History(cfg, before), TickFacts(cfg, before, order, now));
    }
  }

  lemma NothingFair(inputs: seq<Input>)
    ensures Fair(inputs, [])
  {
  }

  lemma FrontNewer(cfg: Config, before: seq<Input>, input: Input, key: string)
    requires Opened(Connection(cfg, before, key)).queue != []
    ensures var req := Opened(Connection(cfg, before, key)).queue[0];
            forall k :: Requested(before + [input], k, req) ==> Newer(before + [input], History(cfg, before), k, req)
  {
    hide Connection, History, Newer, Paired, KeyOf, IsRequestPayload;
    var queue := Opened(Connection(cfg, before, key)).queue;
    QueueInOrder(cfg, before, key);
    RunNewer(cfg, before, key);
    HistoryPaired(cfg, before);
    assert queue[0] in queue;
    EventsKept(before, input, queue[0]);
    NewerLater(before, input, History(cfg, before), key, queue[0]);
  }

  /** Requests under one key are answered in the order in which they came, in every run. */
  lemma {:induction false} AnsweredInOrder(cfg: Config, inputs: seq<Input>, k: nat, l: nat)
    requires k < l
    ensures var h := Run(cfg, inputs).hist;
            l < |h| && IsMatch(h[k]) && IsMatch(h[l]) ==>
              && h[k].req < Arrivals(inputs) && h[l].req < Arrivals(inputs)
              && (KeyOf(EventOf(inputs, h[k].req)) == KeyOf(EventOf(inputs, h[l].req)) ==> h[k].req < h[l].req)
  {
    hide Run, AllAgree, History, KeyOf, IsRequestPayload, IsResponsePayload;
    RunFollows(cfg, inputs);
    RunFair(cfg, inputs);
    HistoryPaired(cfg, inputs);
    var h := Run(cfg, inputs).hist;
    if l < |h| && IsMatch(h[k]) && IsMatch(h[l]) {
      assert h[k] in h && h[l] in h;
      var key := KeyOf(EventOf(inputs, h[k].req));
      assert Requested(inputs, key, h[k].req);
      assert KeyOf(EventOf(inputs, h[l].req)) == key ==> Requested(inputs, key, h[l].req);
    }
  }

  /** The first bytes that make a payload of at least four bytes a request: an HTTP method, an asterisk in Redis, a
      zero in gRPC. */
  lemma RequestPayloadIff(e: Event)
    ensures var p := e.payload;
            IsRequestPayload(e) <==>
            e.payloadSize >= 4 &&
            (|| p[..3] == [71, 69, 84] || p[..4] == [80, 79, 83, 84] || p[..3] == [80, 85, 84] || p[..4] == [68, 69, 76, 69]
             || (e.protocol == 2 && p[0] == 42) || (e.protocol == 1 && p[0] == 0))
  {
    var p := e.payload;
    StartsIff(p, "GET", [71, 69, 84]);
    StartsIff(p, "POST", [80, 79, 83, 84]);
    StartsIff(p, "PUT", [80, 85, 84]);
    StartsIff(p, "DELE", [68, 69, 76, 69]);
    StartsIff(p, "*", [42]);
  }

  /** Those of a response: HTTP, one of +-:$ in Redis, a one in gRPC. */
  lemma ResponsePayloadIff(e: Event)
    ensures var p := e.payload;
            IsResponsePayload(e) <==>
            e.payloadSize >= 4 &&
            (|| p[..4] == [72, 84, 84, 80]
             || (e.protocol == 2 && (p[0] == 43 || p[0] == 45 || p[0] == 58 || p[0] == 36))
             || (e.protocol == 1 && p[0] == 1))
  {
    var p := e.payload;
    StartsIff(p, "HTTP", [72, 84, 84, 80]);
    StartsIff(p, "+", [43]);
    StartsIff(p, "-", [45]);
    StartsIff(p, ":", [58]);
    StartsIff(p, "$", [36]);
  }

  lemma StartsIff(p: Payload, text: string, bytes: Bytes)
    requires |text| == |bytes| <= 4 && forall i :: 0 <= i < |text| ==> text[i] as int == bytes[i] as int
    ensures StartsWith(p, text) <==> p[..|bytes|] == bytes
    ensures |bytes| == 1 ==> (StartsWith(p, text) <==> p[0] == bytes[0])
  {
    if StartsWith(p, text) {
      assert forall i :: 0 <= i < |bytes| ==> p[i] == bytes[i];
    }
  }

  /** No payload is taken for a request and for a response. */
  lemma RequestOrResponse(e: Event)
    ensures !(IsRequestPayload(e) && IsResponsePayload(e))
  {
    assert "GET"[0] == 'G' && "POST"[0] == 'P' && "PUT"[0] == 'P' && "DELE"[0] == 'D' && "*"[0] == '*';
    assert "HTTP"[0] == 'H' && "+"[0] == '+' && "-"[0] == '-' && ":"[0] == ':' && "$"[0] == '$';
    assert PROTOCOL_REDIS != PROTOCOL_GRPC;
  }
}
