/** What a cleanup tick forgets: connections without recent traffic, and spans that waited too long. */
module CorrelatorIdle {
  import opened Options
  import opened Bytes
  import opened CorrelatorModel
  import opened CorrelatorEmission
  import opened CorrelatorReference

  // ---------- traffic since a connection was opened ----------

  predicate EventAt(inputs: seq<Input>, key: string, j: nat) {
    j < |inputs| && inputs[j].Arrive? && KeyOf(inputs[j].e) == key
  }

  predicate KindAt(inputs: seq<Input>, j: nat, kind: byte) {
    j < |inputs| && inputs[j].Arrive? && inputs[j].e.eventType == kind
  }

  predicate TrafficAt(inputs: seq<Input>, key: string, j: nat) {
    EventAt(inputs, key, j) && (inputs[j].e.eventType == EVENT_SEND_TO || inputs[j].e.eventType == EVENT_RECV_FROM)
  }

  predicate ReopenedAt(inputs: seq<Input>, key: string, j: nat) {
    && EventAt(inputs, key, j)
    && (|| inputs[j].e.eventType == EVENT_CONNECT || inputs[j].e.eventType == EVENT_ACCEPT
        || inputs[j].e.eventType == EVENT_CLOSE)
  }

  predicate Connected(cfg: Config, inputs: seq<Input>, key: string) {
    key in Run(cfg, inputs).conns
  }

  /** Input j is a send or a receive under the key, and ever since the key has been connected and was not opened
      again. */
  ghost predicate SinceOpened(cfg: Config, inputs: seq<Input>, key: string, j: nat) {
    && TrafficAt(inputs, key, j)
    && (forall m :: j < m <= |inputs| ==> Connected(cfg, inputs[..m], key))
    && (forall m :: j < m < |inputs| ==> !ReopenedAt(inputs, key, m))
  }

  lemma ConnectedIff(cfg: Config, inputs: seq<Input>, key: string)
    ensures Connected(cfg, inputs, key) <==> Connection(cfg, inputs, key).Some?
  {
    hide Run, Connection, History;
    RunFollows(cfg, inputs);
    assert Agree(Run(cfg, inputs).conns, key, Connection(cfg, inputs, key), inputs);
  }

  lemma EventBefore(inputs: seq<Input>, input: Input, key: string, j: nat)
    requires j < |inputs|
    ensures EventAt(inputs + [input], key, j) <==> EventAt(inputs, key, j)
    ensures TrafficAt(inputs + [input], key, j) <==> TrafficAt(inputs, key, j)
    ensures ReopenedAt(inputs + [input], key, j) <==> ReopenedAt(inputs, key, j)
  {
  }

  lemma SinceOpenedNext(cfg: Config, inputs: seq<Input>, input: Input, key: string, j: nat)
    requires j < |inputs|
    ensures var all := inputs + [input];
            SinceOpened(cfg, all, key, j) <==>
            SinceOpened(cfg, inputs, key, j) && Connected(cfg, all, key) && !ReopenedAt(all, key, |inputs|)
  {
    hide Connected, TrafficAt, ReopenedAt;
    var all, n := inputs + [input], |inputs|;
    assert all[..n + 1] == all;
    forall m | 0 <= m <= n
      ensures all[..m] == inputs[..m] && (m < n ==> (ReopenedAt(all, key, m) <==> ReopenedAt(inputs, key, m)))
    {
      if m < n {
        EventBefore(inputs, input, key, m);
      }
    }
    EventBefore(inputs, input, key, j);
  }

  lemma SinceOpenedNow(cfg: Config, inputs: seq<Input>, input: Input, key: string)
    ensures var all := inputs + [input];
            SinceOpened(cfg, all, key, |inputs|) <==> TrafficAt(all, key, |inputs|) && Connected(cfg, all, key)
  {
    hide Connected, TrafficAt;
    assert (inputs + [input])[..|inputs| + 1] == inputs + [input];
  }

  /** The inputs of one kind since the key was opened. */
  function Touches(cfg: Config, inputs: seq<Input>, key: string, kind: byte): seq<nat> {
    if inputs == [] || Connection(cfg, inputs, key).None? then []
    else
      var n := |inputs| - 1;
      if ReopenedAt(inputs, key, n) then []
      else Touches(cfg, inputs[..n], key, kind) + if TrafficAt(inputs, key, n) && KindAt(inputs, n, kind) then [n] else []
  }

  predicate Rising(js: seq<nat>, n: nat) {
    (forall j <- js :: j < n) && forall a, b :: 0 <= a < b < |js| ==> js[a] < js[b]
  }

  lemma RisingSnoc(js: seq<nat>, n: nat)
    requires Rising(js, n)
    ensures Rising(js, n + 1) && Rising(js + [n], n + 1)
  {
    assert forall a :: 0 <= a < |js| ==> js[a] in js;
  }

  lemma {:induction false} TouchesAre(cfg: Config, inputs: seq<Input>, key: string, kind: byte)
    requires kind == EVENT_SEND_TO || kind == EVENT_RECV_FROM
    ensures var js := Touches(cfg, inputs, key, kind);
            && Rising(js, |inputs|)
            && forall j: nat :: j in js <==> SinceOpened(cfg, inputs, key, j) && KindAt(inputs, j, kind)
  {
    hide Connection, SinceOpened, ReopenedAt, TrafficAt, Touches, Connected;
    if inputs != [] {
      var n := |inputs| - 1;
      var before := inputs[..n];
      assert before + [inputs[n]] == inputs;
      TouchesAre(cfg, before, key, kind);
      ConnectedIff(cfg, inputs, key);
      RisingSnoc(Touches(cfg, before, key, kind), n);
      TouchesNext(cfg, before, inputs[n], key, kind);
      forall j: nat
        ensures j in Touches(cfg, inputs, key, kind) <==> SinceOpened(cfg, inputs, key, j) && KindAt(inputs, j, kind)
      {
        if j < n {
          SinceOpenedNext(cfg, before, inputs[n], key, j);
        } else if j == n {
          SinceOpenedNow(cfg, before, inputs[n], key);
          TrafficIsNot(inputs, key, n);
        } else {
          Beyond(cfg, inputs, key, j);
        }
      }
    } else {
      NothingTouched(cfg, key, kind);
      forall j: nat
        ensures !SinceOpened(cfg, inputs, key, j)
      {
        Beyond(cfg, inputs, key, j);
      }
    }
  }

  lemma NothingTouched(cfg: Config, key: string, kind: byte)
    ensures Touches(cfg, [], key, kind) == []
  {
  }

  lemma Beyond(cfg: Config, inputs: seq<Input>, key: string, j: nat)
    requires j >= |inputs|
    ensures !SinceOpened(cfg, inputs, key, j)
  {
  }

  lemma TouchesNext(cfg: Config, before: seq<Input>, input: Input, key: string, kind: byte)
    ensures var all, n := before + [input], |before|;
            Touches(cfg, all, key, kind) ==
            if !Connected(cfg, all, key) || ReopenedAt(all, key, n) then []
            else Touches(cfg, before, key, kind) + if TrafficAt(all, key, n) && KindAt(all, n, kind) then [n] else []
  {
    hide Connected, ReopenedAt, TrafficAt, Connection;
    assert (before + [input])[..|before|] == before;
    ConnectedIff(cfg, before + [input], key);
  }

  lemma TrafficIsNot(inputs: seq<Input>, key: string, j: nat)
    ensures TrafficAt(inputs, key, j) ==> inputs[j].Arrive? && !ReopenedAt(inputs, key, j)
  {
    hide KeyOf;
  }

  function Times(inputs: seq<Input>, js: seq<nat>): seq<int>
    requires forall j <- js :: j < |inputs|
  {
    seq(|js|, k requires 0 <= k < |js| => assert js[k] in js; inputs[js[k]].now)
  }

  lemma TimesKept(inputs: seq<Input>, input: Input, js: seq<nat>)
    requires forall j <- js :: j < |inputs|
    ensures Times(inputs + [input], js) == Times(inputs, js)
  {
    forall k | 0 <= k < |js|
      ensures Times(inputs + [input], js)[k] == Times(inputs, js)[k]
    {
      assert js[k] in js;
    }
  }

  lemma TimesSnoc(inputs: seq<Input>, js: seq<nat>, j: nat)
    requires (forall i <- js :: i < |inputs|) && j < |inputs|
    ensures Times(inputs, js + [j]) == Times(inputs, js) + [inputs[j].now]
  {
  }

  function TimesOf(c: Conn, kind: byte): seq<int> { if kind == EVENT_SEND_TO then c.sends else c.recvs }

  /** What an event does to the times of its connection. */
  lemma EventTimes(cfg: Config, c: Option<Conn>, e: Event, data: SpanData, i: nat, now: int, kind: byte)
    requires kind == EVENT_SEND_TO || kind == EVENT_RECV_FROM
    ensures var c' := Concluded(Handled(cfg, c, e, i, now), e, data);
            c'.Some? ==>
              TimesOf(c'.value, kind) ==
              if e.eventType == EVENT_CONNECT || e.eventType == EVENT_ACCEPT || e.eventType == EVENT_CLOSE then []
              else TimesOf(Opened(c), kind) + if e.eventType == kind then [now] else []
  {
    hide IsRequestPayload, IsResponsePayload, Room, Tail;
  }

  lemma {:induction false} TimesAre(cfg: Config, inputs: seq<Input>, key: string, kind: byte)
    requires kind == EVENT_SEND_TO || kind == EVENT_RECV_FROM
    ensures var js := Touches(cfg, inputs, key, kind);
            (forall j <- js :: j < |inputs|) && TimesOf(Opened(Connection(cfg, inputs, key)), kind) == Times(inputs, js)
  {
    hide Handled, Concluded, Visited, KeyOf, SinceOpened;
    TouchesAre(cfg, inputs, key, kind);
    if inputs != [] && Connection(cfg, inputs, key).Some? {
      var n := |inputs| - 1;
      var before := inputs[..n];
      assert before + [inputs[n]] == inputs;
      TimesAre(cfg, before, key, kind);
      var js := Touches(cfg, before, key, kind);
      TimesKept(before, inputs[n], js);
      TimesSnoc(inputs, js, n);
      var c := Connection(cfg, before, key);
      match inputs[n]
      case Arrive(e, data, now) =>
        EventTimes(cfg, c, e, data, Arrivals(before), now, kind);
        assert js + [] == js && Times(inputs, js) + [] == Times(inputs, js);
      case Tick(order, now) =>
        StillThere(c, key, order, now, cfg.timeout);
        assert js + [] == js;
    }
  }

  lemma StillThere(c: Option<Conn>, key: string, order: seq<string>, now: int, timeout: int)
    ensures Visited(c, key, order, now, timeout).Some? ==> Visited(c, key, order, now, timeout) == c
  {
  }

  // ---------- which connections a tick forgets ----------

  predicate Recent(cfg: Config, inputs: seq<Input>, now: int, j: nat) {
    j < |inputs| && now - inputs[j].now <= cfg.timeout
  }

  /** The last input of its kind since the key was opened. */
  ghost predicate LastTouch(cfg: Config, inputs: seq<Input>, key: string, kind: byte, j: nat) {
    && SinceOpened(cfg, inputs, key, j) && KindAt(inputs, j, kind)
    && forall m :: j < m < |inputs| && SinceOpened(cfg, inputs, key, m) ==> !KindAt(inputs, m, kind)
  }

  lemma LatelyIff(cfg: Config, inputs: seq<Input>, key: string, now: int, kind: byte)
    requires kind == EVENT_SEND_TO || kind == EVENT_RECV_FROM
    ensures Lately(TimesOf(Opened(Connection(cfg, inputs, key)), kind), now, cfg.timeout) <==>
            exists j: nat :: LastTouch(cfg, inputs, key, kind, j) && Recent(cfg, inputs, now, j)
  {
    hide Connection, SinceOpened, Touches;
    TouchesAre(cfg, inputs, key, kind);
    TimesAre(cfg, inputs, key, kind);
    var js := Touches(cfg, inputs, key, kind);
    if js != [] {
      var j := js[|js| - 1];
      assert j in js;
      forall m | j < m < |inputs| && SinceOpened(cfg, inputs, key, m)
        ensures !KindAt(inputs, m, kind)
      {
        NotBeyond(js, |inputs|, m);
      }
      assert LastTouch(cfg, inputs, key, kind, j);
    }
    forall j: nat | LastTouch(cfg, inputs, key, kind, j)
      ensures js != [] && j == js[|js| - 1]
    {
      LastIsLast(cfg, inputs, key, kind, js, j);
    }
  }

  lemma NotBeyond(js: seq<nat>, n: nat, m: nat)
    requires js != [] && Rising(js, n) && m > js[|js| - 1]
    ensures m !in js
  {
  }

  lemma LastIsLast(cfg: Config, inputs: seq<Input>, key: string, kind: byte, js: seq<nat>, j: nat)
    requires LastTouch(cfg, inputs, key, kind, j) && Rising(js, |inputs|)
    requires forall i: nat :: i in js <==> SinceOpened(cfg, inputs, key, i) && KindAt(inputs, i, kind)
    ensures js != [] && j == js[|js| - 1]
  {
    hide SinceOpened;
    assert j in js;
    var last := js[|js| - 1];
    assert last in js;
  }

  /** A tick that visits a key leaves it connected exactly if it was connected, and the last send or the last receive
      since it was opened is no longer ago than the timeout. Keys that it does not visit stay as they are. */
  lemma {:induction false} TickKeepsIff(cfg: Config, inputs: seq<Input>, order: seq<string>, now: int, key: string)
    ensures Connected(cfg, inputs + [Tick(order, now)], key) <==>
            Connected(cfg, inputs, key) &&
            (key in order ==>
               exists j: nat, kind :: LastTouch(cfg, inputs, key, kind, j) && Recent(cfg, inputs, now, j))
  {
    hide Connected, SinceOpened, Connection, Lately, Recent;
    ConnectedIff(cfg, inputs, key);
    ConnectedIff(cfg, inputs + [Tick(order, now)], key);
    ConnectionTicked(cfg, inputs, order, now, key);
    LatelyIff(cfg, inputs, key, now, EVENT_SEND_TO);
    LatelyIff(cfg, inputs, key, now, EVENT_RECV_FROM);
    forall j: nat, kind | LastTouch(cfg, inputs, key, kind, j)
      ensures kind == EVENT_SEND_TO || kind == EVENT_RECV_FROM
    {
      TouchKind(cfg, inputs, key, kind, j);
    }
  }

  lemma TouchKind(cfg: Config, inputs: seq<Input>, key: string, kind: byte, j: nat)
    requires LastTouch(cfg, inputs, key, kind, j)
    ensures kind == EVENT_SEND_TO || kind == EVENT_RECV_FROM
  {
  }

  /** The clock does not go back. */
  predicate Forward(inputs: seq<Input>) {
    forall i, j :: 0 <= i < j < |inputs| ==> inputs[i].now <= inputs[j].now
  }

  /** With a clock that does not go back: exactly if some send or receive since the key was opened is no longer ago than
      the timeout. */
  lemma {:induction false} TickKeepsForward(cfg: Config, inputs: seq<Input>, order: seq<string>, now: int, key: string)
    requires Forward(inputs) && key in order
    ensures Connected(cfg, inputs + [Tick(order, now)], key) <==>
            Connected(cfg, inputs, key) && exists j: nat :: SinceOpened(cfg, inputs, key, j) && Recent(cfg, inputs, now, j)
  {
    hide Connected, SinceOpened, Touches;
    TickKeepsIff(cfg, inputs, order, now, key);
    forall j: nat | SinceOpened(cfg, inputs, key, j) && Recent(cfg, inputs, now, j)
      ensures exists m: nat, kind :: LastTouch(cfg, inputs, key, kind, m) && Recent(cfg, inputs, now, m)
    {
      var kind, m := LaterTouch(cfg, inputs, key, j);
    }
  }

  lemma LaterTouch(cfg: Config, inputs: seq<Input>, key: string, j: nat) returns (kind: byte, m: nat)
    requires SinceOpened(cfg, inputs, key, j)
    ensures LastTouch(cfg, inputs, key, kind, m) && j <= m < |inputs|
  {
    assert TrafficAt(inputs, key, j);
    kind := inputs[j].e.eventType;
    hide SinceOpened, Touches;
    TouchesAre(cfg, inputs, key, kind);
    var js := Touches(cfg, inputs, key, kind);
    assert j in js;
    m := js[|js| - 1];
    assert m in js;
    forall l | m < l < |inputs| && SinceOpened(cfg, inputs, key, l)
      ensures !KindAt(inputs, l, kind)
    {
      NotBeyond(js, |inputs|, l);
    }
  }

  // ---------- which spans a tick stops waiting for ----------

  /** The entries since which no more than the timeout has passed. */
  function StillWaiting(pending: seq<Waiting>, now: int, timeout: int): seq<Waiting> {
    if pending == [] then []
    else (if now - pending[0].since <= timeout then [pending[0]] else []) + StillWaiting(pending[1..], now, timeout)
  }

  lemma {:induction false} ExpirePendingIs(s: State, j: nat, now: int)
    requires j <= |s.pending|
    ensures ExpirePending(s, j, now).pending == s.pending[..j] + StillWaiting(s.pending[j..], now, s.cfg.timeout)
    decreases |s.pending| - j
  {
    hide ExpireOne, Emit, SetSpan, Deref;
    if j == |s.pending| {
      assert s.pending[..j] == s.pending && s.pending[j..] == [];
    } else if now - s.pending[j].since > s.cfg.timeout {
      var s1 := ExpireOne(s, j);
      ExpiredPending(s, j);
      ExpirePendingIs(s1, j, now);
      assert s1.pending[..j] == s.pending[..j] && s1.pending[j..] == s.pending[j..][1..];
    } else {
      ExpirePendingIs(s, j + 1, now);
      assert s.pending[..j + 1] == s.pending[..j] + [s.pending[j]] && s.pending[j + 1..] == s.pending[j..][1..];
    }
  }

  lemma ExpiredPending(s: State, j: nat)
    requires j < |s.pending|
    ensures ExpireOne(s, j).pending == s.pending[..j] + s.pending[j + 1..]
  {
  }

  lemma {:induction false} StillWaitingAre(pending: seq<Waiting>, now: int, timeout: int)
    ensures forall p :: p in StillWaiting(pending, now, timeout) <==> p in pending && now - p.since <= timeout
  {
    if pending != [] {
      StillWaitingAre(pending[1..], now, timeout);
    }
  }

  /** Every entry has the time at which its span's event came. */
  ghost predicate WaitsSince(pending: seq<Waiting>, inputs: seq<Input>) {
    forall p <- pending :: p.span < Arrivals(inputs) && p.since == ArrivedAt(inputs, p.span)
  }

  lemma WaitsLater(pending: seq<Waiting>, inputs: seq<Input>, input: Input)
    requires WaitsSince(pending, inputs)
    ensures WaitsSince(pending, inputs + [input])
  {
    hide Arrivals, ArrivedAt;
    forall p | p in pending
      ensures p.span < Arrivals(inputs + [input]) && p.since == ArrivedAt(inputs + [input], p.span)
    {
      ArrivalsKept(inputs, input, p.span);
    }
  }

  lemma {:induction false} WithoutAmong(pending: seq<Waiting>, i: nat)
    ensures forall p <- WithoutSpan(pending, i) :: p in pending
  {
    if pending != [] {
      WithoutAmong(pending[1..], i);
    }
  }

  lemma DispatchPending(s: State, i: nat, key: string, e: Event, now: int)
    ensures Dispatch(s, i, key, e, now).pending == s.pending
  {
    hide Enqueue, EvictIfFull, MatchFront, EmitAll, Deref;
    hide IsRequestPayload, IsResponsePayload;
    if e.eventType == EVENT_SEND_TO {
      SendPending(s, i, key, IsRequestPayload(e), now);
    } else if e.eventType == EVENT_RECV_FROM {
      RecvPending(s, i, key, IsResponsePayload(e), now);
    }
  }

  lemma SendPending(s: State, i: nat, key: string, isRequest: bool, now: int)
    ensures HandleSend(s, i, key, isRequest, now).pending == s.pending
  {
    hide Deref;
  }

  lemma RecvPending(s: State, i: nat, key: string, isResponse: bool, now: int)
    ensures HandleRecv(s, i, key, isResponse, now).pending == s.pending
  {
    hide Deref, Answer;
  }

  lemma ConcludePending(s: State, i: nat, key: string, e: Event, now: int)
    ensures forall p <- Conclude(s, i, key, e, now).pending :: p in s.pending || p == Waiting(i, now)
  {
    hide Answer, Deref;
    if Deref(s.spans, i).traceId == "" {
      var s0 := s.(pending := s.pending + [Waiting(i, now)]);
      TryPending(s0, i, key, e, now);
    }
  }

  lemma TryPending(s: State, i: nat, key: string, e: Event, now: int)
    ensures forall p <- TryCorrelate(s, i, key, e, now).pending :: p in s.pending
  {
    hide Answer, Deref;
    var s1 := GetOrCreateFlow(s, key);
    if e.eventType == EVENT_RECV_FROM && s1.conns[key].queue != [] {
      var req := s1.conns[key].queue[0].span;
      WithoutAmong(s.pending, req);
      WithoutAmong(WithoutSpan(s.pending, req), i);
      LateMatchIs(s1, i, key, e, now);
    }
  }

  lemma {:induction false} RunWaits(cfg: Config, inputs: seq<Input>)
    ensures WaitsSince(Run(cfg, inputs).pending, inputs)
  {
    hide Dispatch, Conclude, Arrivals, ArrivedAt, KeyOf, ExpirePending, ExpireFlows;
    if inputs != [] {
      var n := |inputs| - 1;
      var before := inputs[..n];
      var s := Run(cfg, before);
      assert before + [inputs[n]] == inputs;
      RunWaits(cfg, before);
      WaitsLater(s.pending, before, inputs[n]);
      match inputs[n]
      case Arrive(e, data, now) =>
        OneSpanPerArrival(cfg, before);
        NewArrival(before, e, data, now);
        var i, key, s1 := |s.spans|, KeyOf(e), Arrived(s, data);
        DispatchPending(s1, i, key, e, now);
        ConcludePending(Dispatch(s1, i, key, e, now), i, key, e, now);
      case Tick(order, now) =>
        ExpirePendingIs(s, 0, now);
        StillWaitingAre(s.pending[0..], now, cfg.timeout);
        FlowsPending(ExpirePending(s, 0, now), order, now);
    }
  }

  lemma {:induction false} FlowsPending(s: State, order: seq<string>, now: int)
    ensures ExpireFlows(s, order, now).pending == s.pending
    decreases |order|
  {
    hide EmitAll;
    if order != [] {
      FlowsPending(if FlowExpired(s, order[0], now) then DropFlow(s, order[0], false) else s, order[1..], now);
    }
  }

  lemma WaitingIff(pending: seq<Waiting>, i: nat)
    ensures i in WaitingSpans(pending) <==> exists p <- pending :: p.span == i
  {
    if i in WaitingSpans(pending) {
      var k :| 0 <= k < |pending| && WaitingSpans(pending)[k] == i;
      assert pending[k] in pending;
    }
    forall p | p in pending && p.span == i
      ensures i in WaitingSpans(pending)
    {
      var k :| 0 <= k < |pending| && pending[k] == p;
      assert WaitingSpans(pending)[k] == i;
    }
  }

  /** After a tick a span waits exactly if it waited before, and its event came no longer ago than the timeout. */
  lemma {:induction false} TickWaitsIff(cfg: Config, inputs: seq<Input>, order: seq<string>, now: int, i: nat)
    ensures i in WaitingSpans(Run(cfg, inputs + [Tick(order, now)]).pending) <==>
            i in WaitingSpans(Run(cfg, inputs).pending) && now - ArrivedAt(inputs, i) <= cfg.timeout
  {
    hide ExpirePending, ExpireFlows, ArrivedAt, Arrivals, WaitingSpans;
    var all, s := inputs + [Tick(order, now)], Run(cfg, inputs);
    assert all[..|inputs|] == inputs;
    RunWaits(cfg, inputs);
    ExpirePendingIs(s, 0, now);
    assert s.pending[0..] == s.pending;
    StillWaitingAre(s.pending, now, cfg.timeout);
    FlowsPending(ExpirePending(s, 0, now), order, now);
    WaitingIff(s.pending, i);
    WaitingIff(Run(cfg, all).pending, i);
  }
}
