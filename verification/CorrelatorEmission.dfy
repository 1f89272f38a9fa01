/** Which spans reach the span handler, how often, and how responses are tied to their requests. */
module CorrelatorEmission {
  import opened Options
  import opened CorrelatorModel
  import opened CorrelatorAccounting

  // ---------- membership and weight ----------

  lemma {:induction false} MemberWeighs(ids: seq<nat>, i: nat)
    ensures Weigh(ids, Only(i)) > 0 <==> i in ids
    ensures Weigh(ids, Only(i)) == multiset(ids)[i]
  {
    if ids != [] {
      MemberWeighs(ids[1..], i);
      assert ids == [ids[0]] + ids[1..];
      assert multiset(ids) == multiset{ids[0]} + multiset(ids[1..]);
    }
  }

  lemma {:induction false} FactWeighs(hist: seq<Fact>, part: Fact -> seq<nat>, i: nat)
    ensures Collect(hist, part, Only(i)) > 0 <==> exists k :: 0 <= k < |hist| && i in part(hist[k])
  {
    if hist != [] {
      var n := |hist| - 1;
      FactWeighs(hist[..n], part, i);
      MemberWeighs(part(hist[n]), i);
      assert forall k :: 0 <= k < n ==> hist[..n][k] == hist[k];
      if exists k :: 0 <= k < |hist| && i in part(hist[k]) {
        var k :| 0 <= k < |hist| && i in part(hist[k]);
        assert k < n ==> i in part(hist[..n][k]);
      }
    }
  }

  lemma FrontWeighs(s: State, key: string, i: nat)
    requires key in s.conns && s.conns[key].queue != [] && i == s.conns[key].queue[0].span
    ensures BookOf(s, Only(i)).queued > 0
  {
    QueuedAt(s.conns, key, Only(i));
    TailQueue(s.conns[key].queue, Only(i));
  }

  // ---------- every span has one place ----------

  /** Span i is a queued request, a request that left, a matched response, waiting, or none of these;
      in the first three cases it has a trace id, while waiting it has none. */
  ghost predicate Placed(s: State, i: nat) {
    var b := BookOf(s, Only(i));
    var settled := b.queued + b.gone + b.responses;
    && settled + b.waiting <= 1
    && (settled > 0 ==> i < |s.spans| && s.spans[i].traceId != "")
    && (b.waiting > 0 ==> i < |s.spans| && s.spans[i].traceId == "")
  }

  ghost predicate AllPlaced(s: State) {
    forall i: nat :: Placed(s, i)
  }

  /** Span i has not been filed anywhere yet. */
  ghost predicate Free(s: State, i: nat) {
    var b := BookOf(s, Only(i));
    i < |s.spans| && b.queued + b.gone + b.responses + b.waiting == 0
  }

  function TagOf(a: SpanData, name: string): Option<Tag> {
    if name in a.tags then Some(a.tags[name]) else None
  }

  /** Not the name of a tag that holds a request's number. */
  predicate Plain(name: string) { name != "request_seq" && name != "response_seq" }

  lemma PlainTags()
    ensures Plain("matched") && Plain("connection_closed") && Plain("connection_timeout")
  {
    assert |"connection_closed"| == 17 && |"connection_timeout"| == 18 && |"request_seq"| == 11 && |"response_seq"| == 12;
  }

  /** The part of a span that a match fixes. */
  predicate SameLink(a: SpanData, b: SpanData) {
    && a.traceId == b.traceId && a.spanId == b.spanId && a.parentSpanId == b.parentSpanId && a.durationNs == b.durationNs
    && TagOf(a, "request_seq") == TagOf(b, "request_seq") && TagOf(a, "response_seq") == TagOf(b, "response_seq")
  }

  /** A matched response is the child of its request, in the same trace, with the same duration. In handleRecv both
      get the request's number. */
  ghost predicate Linked(s: State) {
    forall k :: 0 <= k < |s.hist| && IsMatch(s.hist[k]) ==>
      var req, resp := s.hist[k].req, s.hist[k].resp;
      && req < |s.spans| && resp < |s.spans| && s.spans[req].traceId != ""
      && s.spans[resp].parentSpanId == s.spans[req].spanId
      && s.spans[resp].traceId == s.spans[req].traceId
      && s.spans[resp].durationNs == s.spans[req].durationNs == s.hist[k].elapsed
      && (s.hist[k].MatchedInRecv? ==>
            TagOf(s.spans[resp], "request_seq") == TagOf(s.spans[req], "response_seq") != None)
  }

  lemma FactIsSettled(s: State, k: nat)
    requires AllPlaced(s) && k < |s.hist| && IsMatch(s.hist[k])
    ensures BookOf(s, Only(s.hist[k].req)).gone > 0
    ensures BookOf(s, Only(s.hist[k].resp)).responses > 0
  {
    FactWeighs(s.hist, Leaving, s.hist[k].req);
    assert s.hist[k].req in Leaving(s.hist[k]);
    FactWeighs(s.hist, Responding, s.hist[k].resp);
    assert s.hist[k].resp in Responding(s.hist[k]);
  }

  /** A step that leaves every span of an old match alone, and adds no match, keeps the links. */
  lemma LinksStay(s: State, s': State)
    requires AllPlaced(s) && Linked(s) && |s'.spans| == |s.spans|
    requires s.hist <= s'.hist
    requires forall k :: |s.hist| <= k < |s'.hist| ==> !IsMatch(s'.hist[k])
    requires forall i: nat :: i < |s.spans| && BookOf(s, Only(i)).gone + BookOf(s, Only(i)).responses > 0 ==>
               SameLink(s.spans[i], s'.spans[i])
    ensures Linked(s')
  {
    forall k | 0 <= k < |s'.hist| && IsMatch(s'.hist[k])
      ensures k < |s.hist| && s'.hist[k] == s.hist[k]
      ensures SameLink(s.spans[s.hist[k].req], s'.spans[s.hist[k].req])
      ensures SameLink(s.spans[s.hist[k].resp], s'.spans[s.hist[k].resp])
    {
      FactIsSettled(s, k);
    }
  }

  // ---------- the handlers keep spans placed and matches linked ----------

  ghost predicate Sound(s: State) {
    AllPlaced(s) && Linked(s)
  }

  lemma OpenSound(s: State, key: string)
    requires Sound(s)
    ensures Sound(Open(s, key))
  {
    forall i: nat ensures Placed(Open(s, key), i) {
      assert Placed(s, i);
      OpenBook(s, key, Only(i));
    }
    LinksStay(s, Open(s, key));
  }

  lemma GetOrCreateSound(s: State, key: string, i: nat)
    requires Sound(s)
    ensures Sound(GetOrCreateFlow(s, key))
    ensures BookOf(GetOrCreateFlow(s, key), Only(i)) == BookOf(s, Only(i))
  {
    forall j: nat ensures Placed(GetOrCreateFlow(s, key), j) {
      assert Placed(s, j);
      GetOrCreateBook(s, key, Only(j));
    }
    GetOrCreateBook(s, key, Only(i));
  }

  lemma TouchSound(s: State, key: string, f: Flow, i: nat)
    requires Sound(s) && Free(s, i) && key in s.conns && f.queue == s.conns[key].queue
    ensures var s' := s.(conns := s.conns[key := f]); Sound(s') && Free(s', i)
  {
    var s' := s.(conns := s.conns[key := f]);
    forall j: nat ensures Placed(s', j) {
      assert Placed(s, j);
      TouchBook(s, key, f, Only(j));
    }
    TouchBook(s, key, f, Only(i));
  }

  /** Changing a span that is filed nowhere disturbs nothing. */
  lemma SetFreeSound(s: State, i: nat, data: SpanData)
    requires Sound(s) && Free(s, i)
    ensures Sound(SetSpan(s, i, data)) && Free(SetSpan(s, i, data), i)
  {
    var s' := SetSpan(s, i, data);
    assert forall j: nat :: BookOf(s', Only(j)) == BookOf(s, Only(j));
    forall j: nat ensures Placed(s', j) {
      assert Placed(s, j);
    }
    LinksStay(s, s');
  }

  lemma EvictSound(s: State, key: string, i: nat)
    requires Sound(s) && Free(s, i) && key in s.conns
    ensures Sound(EvictIfFull(s, key)) && Free(EvictIfFull(s, key), i)
  {
    var s' := EvictIfFull(s, key);
    forall j: nat ensures Placed(s', j) {
      assert Placed(s, j);
      EvictBook(s, key, Only(j));
    }
    EvictBook(s, key, Only(i));
    LinksStay(s, s');
  }

  lemma EnqueueSound(s: State, i: nat, key: string, now: int)
    requires Sound(s) && Free(s, i) && key in s.conns && s.spans[i].traceId != ""
    ensures Sound(Enqueue(s, i, key, now))
  {
    var s' := Enqueue(s, i, key, now);
    forall j: nat ensures Placed(s', j) {
      assert Placed(s, j);
      EnqueueBook(s, i, key, now, Only(j));
    }
    LinksStay(s, s');
  }

  lemma SendSound(s: State, i: nat, key: string, isRequest: bool, now: int)
    requires Sound(s) && Free(s, i)
    ensures Sound(HandleSend(s, i, key, isRequest, now))
    ensures !isRequest ==> Free(HandleSend(s, i, key, isRequest, now), i)
    ensures isRequest ==> HandleSend(s, i, key, isRequest, now).spans[i].traceId != ""
  {
    hide Queued, Weigh, Collect;
    GetOrCreateSound(s, key, i);
    var s0 := GetOrCreateFlow(s, key);
    TouchSound(s0, key, s0.conns[key].(lastSend := At(now)), i);
    if isRequest {
      var s1 := TouchSend(s0, key, now);
      SetFreeSound(s1, i, Deref(s1.spans, i).Named());
      var s2 := SetSpan(s1, i, Deref(s1.spans, i).Named());
      EvictSound(s2, key, i);
      EnqueueSound(EvictIfFull(s2, key), i, key, now);
    }
  }

  ghost predicate Unmatched(s: State, i: nat) {
    var b := BookOf(s, Only(i));
    i < |s.spans| && b.queued + b.gone + b.responses == 0
  }

  lemma MatchSpans(s: State, i: nat, key: string, now: int, late: bool)
    requires Sound(s) && Unmatched(s, i) && key in s.conns && s.conns[key].queue != []
    ensures var s' := MatchFront(s, i, key, now, late); var req := s.conns[key].queue[0].span;
            && req != i && req < |s.spans| && s.spans[req].traceId != "" && BookOf(s, Only(req)).queued > 0
            && s'.spans[i].traceId == s'.spans[req].traceId == s.spans[req].traceId
            && s'.spans[i].parentSpanId == s'.spans[req].spanId
            && s'.spans[i].durationNs == s'.spans[req].durationNs == now - s.conns[key].queue[0].sendTime
            && (!late ==> TagOf(s'.spans[i], "request_seq") == TagOf(s'.spans[req], "response_seq") != None)
            && (forall j :: 0 <= j < |s.spans| && j != i && j != req ==> s'.spans[j] == s.spans[j])
  {
    var req := s.conns[key].queue[0].span;
    FrontWeighs(s, key, req);
    assert Placed(s, req);
  }

  /** Matching files the request under those that left and i under the responses. */
  lemma MatchFiles(s: State, i: nat, key: string, now: int, late: bool, j: nat)
    requires i < |s.spans| && key in s.conns && s.conns[key].queue != []
    ensures var b, b' := BookOf(s, Only(j)), BookOf(MatchFront(s, i, key, now, late), Only(j));
            && b'.queued + b'.gone == b.queued + b.gone
            && b'.responses == b.responses + (if j == i then 1 else 0)
            && b'.waiting == b.waiting
  {
    var req := s.conns[key].queue[0].span;
    MatchBook(s, i, key, now, late, Only(j));
  }

  /** The spans of an old match are neither i nor the request now matched. */
  lemma OldMatchUntouched(s: State, i: nat, key: string, k: nat)
    requires Sound(s) && Unmatched(s, i) && key in s.conns && s.conns[key].queue != []
    requires k < |s.hist| && IsMatch(s.hist[k])
    ensures var req := s.conns[key].queue[0].span; var f := s.hist[k];
            f.req < |s.spans| && f.resp < |s.spans| && f.req != i && f.req != req && f.resp != i && f.resp != req
  {
    FrontWeighs(s, key, s.conns[key].queue[0].span);
    FactIsSettled(s, k);
    assert Placed(s, s.hist[k].req) && Placed(s, s.hist[k].resp);
  }

  /** One more linked pair, and the spans of the old pairs as they were. */
  lemma LinkOneMore(s: State, s': State, f: Fact)
    requires Linked(s) && s'.hist == s.hist + [f] && IsMatch(f)
    requires |s'.spans| == |s.spans| && f.req < |s.spans| && f.resp < |s.spans|
    requires s'.spans[f.resp].traceId == s'.spans[f.req].traceId != ""
    requires s'.spans[f.resp].parentSpanId == s'.spans[f.req].spanId
    requires s'.spans[f.resp].durationNs == s'.spans[f.req].durationNs == f.elapsed
    requires f.MatchedInRecv? ==> TagOf(s'.spans[f.resp], "request_seq") == TagOf(s'.spans[f.req], "response_seq") != None
    requires forall k :: 0 <= k < |s.hist| && IsMatch(s.hist[k]) ==>
               && s.hist[k].req < |s.spans| && s'.spans[s.hist[k].req] == s.spans[s.hist[k].req]
               && s.hist[k].resp < |s.spans| && s'.spans[s.hist[k].resp] == s.spans[s.hist[k].resp]
    ensures Linked(s')
  {
  }

  lemma MatchLinked(s: State, i: nat, key: string, now: int, late: bool)
    requires Sound(s) && Unmatched(s, i) && key in s.conns && s.conns[key].queue != []
    ensures Linked(MatchFront(s, i, key, now, late))
  {
    hide BookOf, Placed, TagOf;
    var s' := MatchFront(s, i, key, now, late);
    var req := s.conns[key].queue[0].span;
    MatchSpans(s, i, key, now, late);
    forall k | 0 <= k < |s.hist| && IsMatch(s.hist[k])
      ensures s.hist[k].req < |s.spans| && s'.spans[s.hist[k].req] == s.spans[s.hist[k].req]
      ensures s.hist[k].resp < |s.spans| && s'.spans[s.hist[k].resp] == s.spans[s.hist[k].resp]
    {
      OldMatchUntouched(s, i, key, k);
    }
    LinkOneMore(s, s', MatchFact(req, i, now - s.conns[key].queue[0].sendTime, late));
  }

  lemma MatchInRecvSound(s: State, i: nat, key: string, now: int)
    requires Sound(s) && Free(s, i) && key in s.conns && s.conns[key].queue != []
    ensures Sound(MatchFront(s, i, key, now, false))
  {
    var s' := MatchFront(s, i, key, now, false);
    MatchSpans(s, i, key, now, false);
    forall j: nat ensures Placed(s', j) {
      assert Placed(s, j);
      MatchFiles(s, i, key, now, false, j);
    }
    MatchLinked(s, i, key, now, false);
  }

  /** Other tags never disturb anything. */
  lemma TagSound(s: State, i: nat, name: string, tag: Tag)
    requires Sound(s) && Plain(name)
    ensures Sound(SetSpan(s, i, Deref(s.spans, i).Tagged(name, tag)))
  {
    hide Queued, Weigh, Collect;
    var s' := SetSpan(s, i, Deref(s.spans, i).Tagged(name, tag));
    forall j: nat ensures Placed(s', j) {
      assert Placed(s, j);
      assert BookOf(s', Only(j)) == BookOf(s, Only(j));
    }
    LinksStay(s, s');
  }

  lemma RecvSound(s: State, i: nat, key: string, isResponse: bool, now: int)
    requires Sound(s) && Free(s, i)
    ensures Sound(HandleRecv(s, i, key, isResponse, now))
    ensures var s' := HandleRecv(s, i, key, isResponse, now); Free(s', i) || s'.spans[i].traceId != ""
  {
    GetOrCreateSound(s, key, i);
    var s0 := GetOrCreateFlow(s, key);
    TouchSound(s0, key, s0.conns[key].(lastRecv := At(now)), i);
    var s1 := TouchRecv(s0, key, now);
    if isResponse {
      if s1.conns[key].queue != [] {
        MatchInRecvSound(s1, i, key, now);
        var s2 := MatchFront(s1, i, key, now, false);
        MatchSpans(s1, i, key, now, false);
        PlainTags();
        TagSound(s2, i, "matched", Flag);
      } else {
        SetFreeSound(s1, i, Deref(s1.spans, i).Named().Tagged("orphan_response", Flag));
      }
    }
  }

  lemma EmitAllSound(s: State, ids: seq<nat>, tag: string, onlyIfHandled: bool)
    requires Sound(s) && Plain(tag)
    ensures Sound(EmitAll(s, ids, tag, onlyIfHandled))
    ensures forall i :: 0 <= i < |s.spans| ==> SameLink(EmitAll(s, ids, tag, onlyIfHandled).spans[i], s.spans[i])
    decreases |ids|
  {
    if ids != [] {
      var s1 := if onlyIfHandled && !s.cfg.handlerSet then s else SetSpan(s, ids[0], Deref(s.spans, ids[0]).Tagged(tag, Flag));
      TagSound(s, ids[0], tag, Flag);
      EmitSound(s1, ids[0]);
      EmitAllSound(Emit(s1, ids[0]), ids[1..], tag, onlyIfHandled);
    }
  }

  lemma EmitSound(s: State, i: nat)
    requires Sound(s)
    ensures Sound(Emit(s, i))
  {
    forall j: nat ensures Placed(Emit(s, i), j) {
      assert Placed(s, j);
      EmitBook(s, i, Only(j));
    }
  }

  lemma DropSound(s: State, key: string, closing: bool)
    requires Sound(s) && key in s.conns
    ensures Sound(DropFlow(s, key, closing))
    ensures forall i :: 0 <= i < |s.spans| ==> SameLink(DropFlow(s, key, closing).spans[i], s.spans[i])
  {
    var s' := DropFlow(s, key, closing);
    PlainTags();
    EmitAllSound(s, SpansOf(s.conns[key].queue), if closing then "connection_closed" else "connection_timeout", closing);
    forall j: nat ensures Placed(s', j) {
      assert Placed(s, j);
      DropBook(s, key, closing, Only(j));
    }
    LinksStay(s, s');
  }

  lemma DispatchSound(s: State, i: nat, key: string, e: Event, now: int)
    requires Sound(s) && Free(s, i)
    ensures var s' := Dispatch(s, i, key, e, now); Sound(s') && (Free(s', i) || s'.spans[i].traceId != "")
  {
    hide HandleSend, HandleRecv, DropFlow, AllPlaced, Linked, Queued, Collect, Emitted, IsRequestPayload, IsResponsePayload;
    if e.eventType == EVENT_CONNECT || e.eventType == EVENT_ACCEPT {
      OpenSound(s, key);
      OpenBook(s, key, Only(i));
    } else if e.eventType == EVENT_SEND_TO {
      SendSound(s, i, key, IsRequestPayload(e), now);
    } else if e.eventType == EVENT_RECV_FROM {
      RecvSound(s, i, key, IsResponsePayload(e), now);
    } else if e.eventType == EVENT_CLOSE && key in s.conns {
      DropSound(s, key, true);
      DropBook(s, key, true, Only(i));
    }
  }

  lemma PushWaiting(pending: seq<Waiting>, i: nat, now: int, w: Weight)
    ensures Weigh(WaitingSpans(pending + [Waiting(i, now)]), w) == Weigh(WaitingSpans(pending), w) + w(i)
  {
    WeighSnoc(WaitingSpans(pending), i, w);
    assert WaitingSpans(pending + [Waiting(i, now)]) == WaitingSpans(pending) + [i];
  }

  lemma PushSound(s: State, i: nat, now: int)
    requires Sound(s) && Free(s, i) && s.spans[i].traceId == ""
    ensures var s' := s.(pending := s.pending + [Waiting(i, now)]); Sound(s') && Unmatched(s', i)
  {
    var s' := s.(pending := s.pending + [Waiting(i, now)]);
    forall j: nat ensures Placed(s', j) {
      assert Placed(s, j);
      PushWaiting(s.pending, i, now, Only(j));
    }
    PushWaiting(s.pending, i, now, Only(i));
  }

  /** Removing the request (which never waits) and the response leaves everything else waiting. */
  lemma LateMatchWaiting(s: State, i: nat, key: string, w: Weight)
    requires Sound(s) && Unmatched(s, i) && key in s.conns && s.conns[key].queue != []
    requires i in WaitingSpans(s.pending)
    ensures var req := s.conns[key].queue[0].span;
            Weigh(WaitingSpans(WithoutSpan(WithoutSpan(s.pending, req), i)), w) + w(i) == BookOf(s, w).waiting
  {
    var req := s.conns[key].queue[0].span;
    FrontWeighs(s, key, req);
    assert Placed(s, req);
    MemberWeighs(WaitingSpans(s.pending), req);
    NotWaiting(s.pending, req);
    WithoutSpanBook(s.pending, i, w);
  }

  lemma NotWaiting(pending: seq<Waiting>, i: nat)
    requires i !in WaitingSpans(pending)
    ensures WithoutSpan(pending, i) == pending
  {
    if pending != [] {
      assert WaitingSpans(pending)[0] == pending[0].span;
      assert WaitingSpans(pending)[1..] == WaitingSpans(pending[1..]);
    }
  }

  lemma LateMatchIs(s: State, i: nat, key: string, e: Event, now: int)
    requires key in s.conns && s.conns[key].queue != [] && e.eventType == EVENT_RECV_FROM
    ensures var s1, req := MatchFront(s, i, key, now, true), s.conns[key].queue[0].span;
            && s1.pending == s.pending
            && TryCorrelate(s, i, key, e, now) == s1.(pending := WithoutSpan(WithoutSpan(s.pending, req), i))
  {
    hide Answer, WithoutSpan;
  }

  lemma LateMatchPlaced(s: State, i: nat, key: string, now: int, j: nat)
    requires Sound(s) && Unmatched(s, i) && i in WaitingSpans(s.pending)
    requires key in s.conns && s.conns[key].queue != []
    ensures var s1, req := MatchFront(s, i, key, now, true), s.conns[key].queue[0].span;
            Placed(s1.(pending := WithoutSpan(WithoutSpan(s.pending, req), i)), j)
  {
    assert Placed(s, j) && Placed(s, i) && i < |s.spans|;
    assert BookOf(s, Only(i)).waiting > 0 by {
      MemberWeighs(WaitingSpans(s.pending), i);
    }
    MatchSpans(s, i, key, now, true);
    MatchFiles(s, i, key, now, true, j);
    LateMatchWaiting(s, i, key, Only(j));
    hide MatchFront, BookOf, Sound;
    var s1 := MatchFront(s, i, key, now, true);
    PendingBook(s1, WithoutSpan(WithoutSpan(s.pending, s.conns[key].queue[0].span), i), Only(j));
  }

  lemma PendingBook(s: State, pending: seq<Waiting>, w: Weight)
    ensures BookOf(s.(pending := pending), w) == BookOf(s, w).(waiting := Weigh(WaitingSpans(pending), w))
  {
    hide Queued, Collect, Weigh, WaitingSpans;
  }

  lemma LinkedAlike(s: State, s': State)
    requires Linked(s) && s'.hist == s.hist && s'.spans == s.spans
    ensures Linked(s')
  {
  }

  lemma LateMatchSound(s: State, i: nat, key: string, e: Event, now: int)
    requires Sound(s) && Unmatched(s, i) && i in WaitingSpans(s.pending)
    requires key in s.conns && s.conns[key].queue != [] && e.eventType == EVENT_RECV_FROM
    ensures Sound(TryCorrelate(s, i, key, e, now))
  {
    hide MatchFront, TryCorrelate, WithoutSpan, Placed, Linked, Unmatched, WaitingSpans;
    LateMatchIs(s, i, key, e, now);
    MatchLinked(s, i, key, now, true);
    LinkedAlike(MatchFront(s, i, key, now, true), TryCorrelate(s, i, key, e, now));
    forall j: nat ensures Placed(TryCorrelate(s, i, key, e, now), j) {
      LateMatchPlaced(s, i, key, now, j);
    }
  }

  lemma ConcludeSound(s: State, i: nat, key: string, e: Event, now: int)
    requires Sound(s) && i < |s.spans| && (Free(s, i) || s.spans[i].traceId != "")
    ensures Sound(Conclude(s, i, key, e, now))
  {
    if s.spans[i].traceId != "" {
      EmitSound(s, i);
    } else {
      var s0 := s.(pending := s.pending + [Waiting(i, now)]);
      PushSound(s, i, now);
      GetOrCreateSound(s0, key, i);
      var s1 := GetOrCreateFlow(s0, key);
      assert WaitingSpans(s1.pending)[|s.pending|] == i;
      if e.eventType == EVENT_RECV_FROM && s1.conns[key].queue != [] {
        LateMatchSound(s1, i, key, e, now);
      }
    }
  }

  lemma CutWaiting(pending: seq<Waiting>, j: nat, w: Weight)
    requires j < |pending|
    ensures Weigh(WaitingSpans(pending[..j] + pending[j + 1..]), w) + w(pending[j].span) == Weigh(WaitingSpans(pending), w)
  {
    var front, back := WaitingSpans(pending[..j]), WaitingSpans(pending[j + 1..]);
    assert WaitingSpans(pending) == front + [pending[j].span] + back;
    assert WaitingSpans(pending[..j] + pending[j + 1..]) == front + back;
    WeighConcat(front + [pending[j].span], back, w);
    WeighSnoc(front, pending[j].span, w);
    WeighConcat(front, back, w);
  }

  lemma ExpireOneBook(s: State, j: nat, w: Weight)
    requires j < |s.pending|
    ensures var b, i := BookOf(s, w), s.pending[j].span;
            b.waiting >= w(i) &&
            BookOf(ExpireOne(s, j), w) == b.(waiting := b.waiting - w(i), log := b.log + Emitted(s, w(i)))
  {
    CutWaiting(s.pending, j, w);
    EmitBook(s, s.pending[j].span, w);
  }

  lemma ExpireOnePlaced(s: State, j: nat, k: nat)
    requires Sound(s) && j < |s.pending|
    ensures Placed(ExpireOne(s, j), k)
  {
    var i := s.pending[j].span;
    hide ExpireOne, BookOf, WaitingSpans;
    assert Placed(s, k);
    if k < |s.spans| && k != i {
      ExpireOneSpans(s, j, k);
    }
    ExpireOneBook(s, j, Only(k));
  }

  lemma ExpireOneSpans(s: State, j: nat, k: nat)
    requires j < |s.pending| && k < |s.spans| && k != s.pending[j].span
    ensures ExpireOne(s, j).spans[k] == s.spans[k]
  {
  }

  /** An expired span was in no match. */
  lemma ExpireOneLinked(s: State, j: nat)
    requires Sound(s) && j < |s.pending|
    ensures Linked(ExpireOne(s, j))
  {
    var s', i := ExpireOne(s, j), s.pending[j].span;
    assert WaitingSpans(s.pending)[j] == i;
    MemberWeighs(WaitingSpans(s.pending), i);
    assert Placed(s, i);
    LinksStay(s, s');
  }

  lemma ExpireOneSound(s: State, j: nat)
    requires Sound(s) && j < |s.pending|
    ensures Sound(ExpireOne(s, j))
  {
    hide Placed, Linked, ExpireOne;
    forall k: nat ensures Placed(ExpireOne(s, j), k) {
      ExpireOnePlaced(s, j, k);
    }
    ExpireOneLinked(s, j);
  }

  lemma {:induction false} ExpirePendingSound(s: State, j: nat, now: int)
    requires Sound(s) && j <= |s.pending|
    ensures Sound(ExpirePending(s, j, now))
    decreases |s.pending| - j
  {
    if j < |s.pending| {
      if now - s.pending[j].since > s.cfg.timeout {
        ExpireOneSound(s, j);
        ExpirePendingSound(ExpireOne(s, j), j, now);
      } else {
        ExpirePendingSound(s, j + 1, now);
      }
    }
  }

  lemma {:induction false} ExpireFlowsSound(s: State, order: seq<string>, now: int)
    requires Sound(s)
    ensures Sound(ExpireFlows(s, order, now))
    decreases |order|
  {
    if order != [] {
      if FlowExpired(s, order[0], now) {
        DropSound(s, order[0], false);
        ExpireFlowsSound(DropFlow(s, order[0], false), order[1..], now);
      } else {
        ExpireFlowsSound(s, order[1..], now);
      }
    }
  }

  lemma ArrivedSound(s: State, data: SpanData)
    requires Sound(s)
    ensures Sound(Arrived(s, data)) && Free(Arrived(s, data), |s.spans|)
  {
    var s' := Arrived(s, data);
    assert forall j: nat :: BookOf(s', Only(j)) == BookOf(s, Only(j));
    forall j: nat ensures Placed(s', j) {
      assert Placed(s, j);
    }
    assert Placed(s, |s.spans|);
  }

  /** In every run every span has one place and every match is linked. */
  lemma {:induction false} RunSound(cfg: Config, inputs: seq<Input>)
    ensures Sound(Run(cfg, inputs))
  {
    if inputs != [] {
      var before := Run(cfg, inputs[..|inputs| - 1]);
      RunSound(cfg, inputs[..|inputs| - 1]);
      match inputs[|inputs| - 1]
      case Arrive(e, data, now) =>
        var i := |before.spans|;
        ArrivedSound(before, data);
        DispatchSound(Arrived(before, data), i, KeyOf(e), e, now);
        ConcludeSound(Dispatch(Arrived(before, data), i, KeyOf(e), e, now), i, KeyOf(e), e, now);
      case Tick(order, now) =>
        ExpirePendingSound(before, 0, now);
        ExpireFlowsSound(ExpirePending(before, 0, now), order, now);
    }
  }

  // ---------- the balance of emissions ----------

  function Upto(n: nat): seq<nat> {
    seq(n, i => i)
  }

  /** Of the first n spans, everything emitted or still waiting is: each span once, plus the
      requests reported when they left, plus the responses matched inside handleRecv. */
  ghost predicate Balanced(s: State, n: nat, w: Weight) {
    var b := BookOf(s, w);
    s.cfg.handlerSet ==> b.log + b.waiting == Weigh(Upto(n), w) + b.reported + b.doubled
  }

  lemma UptoSnoc(n: nat, w: Weight)
    ensures Weigh(Upto(n + 1), w) == Weigh(Upto(n), w) + w(n)
  {
    WeighSnoc(Upto(n), n, w);
    assert Upto(n + 1) == Upto(n) + [n];
  }

  lemma SendBalanced(s: State, i: nat, key: string, isRequest: bool, now: int, n: nat, w: Weight)
    requires Balanced(s, n, w) && i < |s.spans|
    ensures Balanced(HandleSend(s, i, key, isRequest, now), n, w)
  {
    GetOrCreateBook(s, key, w);
    var s0 := GetOrCreateFlow(s, key);
    TouchBook(s0, key, s0.conns[key].(lastSend := At(now)), w);
    var s1 := TouchSend(s0, key, now);
    assert Balanced(s1, n, w);
    if isRequest {
      var s2 := SetSpan(s1, i, Deref(s1.spans, i).Named());
      assert BookOf(s2, w) == BookOf(s1, w);
      EvictBook(s2, key, w);
      var s3 := EvictIfFull(s2, key);
      assert Balanced(s3, n, w);
      EnqueueBook(s3, i, key, now, w);
    }
  }

  lemma RecvBalanced(s: State, i: nat, key: string, isResponse: bool, now: int, n: nat, w: Weight)
    requires Balanced(s, n, w) && i < |s.spans|
    ensures Balanced(HandleRecv(s, i, key, isResponse, now), n, w)
  {
    GetOrCreateBook(s, key, w);
    var s0 := GetOrCreateFlow(s, key);
    TouchBook(s0, key, s0.conns[key].(lastRecv := At(now)), w);
    var s1 := TouchRecv(s0, key, now);
    assert Balanced(s1, n, w);
    if isResponse && s1.conns[key].queue != [] {
      MatchBook(s1, i, key, now, false, w);
      var s2 := MatchFront(s1, i, key, now, false);
      assert Balanced(s2, n, w);
      assert BookOf(SetSpan(s2, i, Deref(s2.spans, i).Tagged("matched", Flag)), w) == BookOf(s2, w);
    } else if isResponse {
      assert BookOf(HandleRecv(s, i, key, isResponse, now), w) == BookOf(s1, w);
    }
  }

  lemma OpenBalanced(s: State, key: string, n: nat, w: Weight)
    requires Balanced(s, n, w)
    ensures Balanced(Open(s, key), n, w)
  {
    OpenBook(s, key, w);
  }

  lemma DropBalanced(s: State, key: string, closing: bool, n: nat, w: Weight)
    requires Balanced(s, n, w) && key in s.conns
    ensures Balanced(DropFlow(s, key, closing), n, w)
  {
    DropBook(s, key, closing, w);
  }

  lemma DispatchBalanced(s: State, i: nat, key: string, e: Event, now: int, n: nat, w: Weight)
    requires Balanced(s, n, w) && i < |s.spans|
    ensures Balanced(Dispatch(s, i, key, e, now), n, w)
  {
    if e.eventType == EVENT_CONNECT || e.eventType == EVENT_ACCEPT {
      OpenBalanced(s, key, n, w);
    } else if e.eventType == EVENT_SEND_TO {
      SendBalanced(s, i, key, IsRequestPayload(e), now, n, w);
    } else if e.eventType == EVENT_RECV_FROM {
      RecvBalanced(s, i, key, IsResponsePayload(e), now, n, w);
    } else if e.eventType == EVENT_CLOSE && key in s.conns {
      DropBalanced(s, key, true, n, w);
    }
  }

  lemma LateMatchBook(s: State, i: nat, key: string, e: Event, now: int, w: Weight)
    requires Sound(s) && Unmatched(s, i) && i in WaitingSpans(s.pending)
    requires key in s.conns && s.conns[key].queue != [] && e.eventType == EVENT_RECV_FROM
    ensures var b, b' := BookOf(s, w), BookOf(TryCorrelate(s, i, key, e, now), w);
            var x := w(s.conns[key].queue[0].span);
            && b'.log == b.log + Emitted(s, x + w(i)) && b'.waiting + w(i) == b.waiting
            && b'.reported == b.reported + x && b'.doubled == b.doubled
  {
    var req := s.conns[key].queue[0].span;
    MatchBook(s, i, key, now, true, w);
    LateMatchWaiting(s, i, key, w);
  }

  lemma ConcludeBalanced(s: State, i: nat, key: string, e: Event, now: int, w: Weight)
    requires Sound(s) && Balanced(s, i, w) && i < |s.spans| && (Free(s, i) || s.spans[i].traceId != "")
    ensures Balanced(Conclude(s, i, key, e, now), i + 1, w)
  {
    hide Queued, Collect, Upto;
    UptoSnoc(i, w);
    if s.spans[i].traceId != "" {
      EmitBook(s, i, w);
    } else {
      var s0 := s.(pending := s.pending + [Waiting(i, now)]);
      PushSound(s, i, now);
      PushWaiting(s.pending, i, now, w);
      GetOrCreateSound(s0, key, i);
      GetOrCreateBook(s0, key, w);
      var s1 := GetOrCreateFlow(s0, key);
      assert Balanced(s1, i + 1, w);
      assert WaitingSpans(s1.pending)[|s.pending|] == i;
      if e.eventType == EVENT_RECV_FROM && s1.conns[key].queue != [] {
        LateMatchBook(s1, i, key, e, now, w);
        assert TryCorrelate(s1, i, key, e, now) == TryCorrelate(s0, i, key, e, now);
      }
    }
  }

  lemma {:induction false} ExpirePendingBalanced(s: State, j: nat, now: int, n: nat, w: Weight)
    requires Balanced(s, n, w) && j <= |s.pending|
    ensures Balanced(ExpirePending(s, j, now), n, w)
    decreases |s.pending| - j
  {
    if j < |s.pending| {
      if now - s.pending[j].since > s.cfg.timeout {
        ExpireOneBook(s, j, w);
        ExpirePendingBalanced(ExpireOne(s, j), j, now, n, w);
      } else {
        ExpirePendingBalanced(s, j + 1, now, n, w);
      }
    }
  }

  lemma {:induction false} ExpireFlowsBalanced(s: State, order: seq<string>, now: int, n: nat, w: Weight)
    requires Balanced(s, n, w)
    ensures Balanced(ExpireFlows(s, order, now), n, w)
    decreases |order|
  {
    if order != [] {
      if FlowExpired(s, order[0], now) {
        DropBalanced(s, order[0], false, n, w);
        ExpireFlowsBalanced(DropFlow(s, order[0], false), order[1..], now, n, w);
      } else {
        ExpireFlowsBalanced(s, order[1..], now, n, w);
      }
    }
  }

  lemma {:induction false} RunBalanced(cfg: Config, inputs: seq<Input>, w: Weight)
    ensures Balanced(Run(cfg, inputs), |Run(cfg, inputs).spans|, w)
  {
    if inputs != [] {
      var before := Run(cfg, inputs[..|inputs| - 1]);
      RunSound(cfg, inputs[..|inputs| - 1]);
      RunBalanced(cfg, inputs[..|inputs| - 1], w);
      match inputs[|inputs| - 1]
      case Arrive(e, data, now) =>
        var i := |before.spans|;
        var s1 := Arrived(before, data);
        assert BookOf(s1, w) == BookOf(before, w);
        ArrivedSound(before, data);
        DispatchSound(s1, i, KeyOf(e), e, now);
        DispatchBalanced(s1, i, KeyOf(e), e, now, i, w);
        ConcludeBalanced(Dispatch(s1, i, KeyOf(e), e, now), i, KeyOf(e), e, now, w);
      case Tick(order, now) =>
        ExpirePendingBalanced(before, 0, now, |before.spans|, w);
        ExpireFlowsBalanced(ExpirePending(before, 0, now), order, now, |before.spans|, w);
    }
  }

  // ---------- the main results ----------

  function Arrivals(inputs: seq<Input>): nat {
    if inputs == [] then 0
    else Arrivals(inputs[..|inputs| - 1]) + if inputs[|inputs| - 1].Arrive? then 1 else 0
  }

  lemma {:induction false} OneSpanPerArrival(cfg: Config, inputs: seq<Input>)
    ensures |Run(cfg, inputs).spans| == Arrivals(inputs)
  {
    if inputs != [] {
      OneSpanPerArrival(cfg, inputs[..|inputs| - 1]);
    }
  }

  lemma {:induction false} ReportedSplits(hist: seq<Fact>, w: Weight)
    ensures Collect(hist, Reporting, w) ==
            Collect(hist, MatchedReqs, w) + Collect(hist, LateReqs, w) + Collect(hist, EvictedReqs, w) +
            Collect(hist, ClosedReqs, w) + Collect(hist, TimedOutReqs, w)
    ensures Collect(hist, Drifting, w) == Collect(hist, EvictedReqs, w) + Collect(hist, OverwrittenReqs, w)
  {
    if hist != [] {
      ReportedSplits(hist[..|hist| - 1], w);
    }
  }

  lemma {:induction false} MatchesPair(hist: seq<Fact>)
    ensures Collect(hist, RespondingInRecv, Unit) == Collect(hist, MatchedReqs, Unit)
  {
    if hist != [] {
      MatchesPair(hist[..|hist| - 1]);
      WeighUnit(RespondingInRecv(hist[|hist| - 1]));
      WeighUnit(MatchedReqs(hist[|hist| - 1]));
    }
  }

  /** How many requests left in one of the ways. */
  ghost function Number(s: State, way: Fact -> seq<nat>): nat {
    Collect(s.hist, way, Unit)
  }

  /** ProcessedSpans counts the handler calls, and where they come from. */
  lemma {:induction false} ProcessedSpansExplained(cfg: Config, inputs: seq<Input>)
    requires cfg.handlerSet
    ensures var s := Run(cfg, inputs);
            && s.stats.total == Arrivals(inputs)
            && s.stats.processed == |s.log|
            && |s.log| == s.stats.total - |s.pending| + 2 * Number(s, MatchedReqs) + Number(s, LateReqs)
                          + Number(s, EvictedReqs) + Number(s, ClosedReqs) + Number(s, TimedOutReqs)
  {
    var s := Run(cfg, inputs);
    CountersExplained(cfg, inputs);
    OneSpanPerArrival(cfg, inputs);
    RunBalanced(cfg, inputs, Unit);
    ReportedSplits(s.hist, Unit);
    MatchesPair(s.hist);
    WeighUnit(s.log);
    WeighUnit(Upto(|s.spans|));
    WeighUnit(WaitingSpans(s.pending));
  }

  ghost predicate LeftReported(s: State, i: nat) {
    exists k :: 0 <= k < |s.hist| && i in Reporting(s.hist[k])
  }

  ghost predicate AnsweredInRecv(s: State, i: nat) {
    exists k :: 0 <= k < |s.hist| && i in RespondingInRecv(s.hist[k])
  }

  lemma {:induction false} ReportedAmongGone(hist: seq<Fact>, i: nat)
    ensures Collect(hist, Reporting, Only(i)) <= Collect(hist, Leaving, Only(i))
    ensures Collect(hist, RespondingInRecv, Only(i)) <= Collect(hist, Responding, Only(i))
  {
    if hist != [] {
      ReportedAmongGone(hist[..|hist| - 1], i);
    }
  }

  /** Every span sits in exactly one pending entry and was never emitted, or was emitted once, or twice:
      twice exactly if it left a live queue as a request or was matched as a response in handleRecv. */
  lemma {:induction false} EmittedOnceTwiceOrWaiting(cfg: Config, inputs: seq<Input>, i: nat)
    requires cfg.handlerSet
    ensures var s := Run(cfg, inputs); i < |s.spans| ==>
              var waits := multiset(WaitingSpans(s.pending))[i];
              && waits <= 1
              && multiset(s.log)[i] == (if waits == 1 then 0 else if LeftReported(s, i) || AnsweredInRecv(s, i) then 2 else 1)
              && !(waits == 1 && (LeftReported(s, i) || AnsweredInRecv(s, i)))
  {
    hide Run, Linked, Queued, Upto;
    var s := Run(cfg, inputs);
    RunSound(cfg, inputs);
    RunBalanced(cfg, inputs, Only(i));
    if i < |s.spans| {
      assert Placed(s, i);
      MemberWeighs(s.log, i);
      MemberWeighs(WaitingSpans(s.pending), i);
      MemberWeighs(Upto(|s.spans|), i);
      OnceInUpto(|s.spans|, i);
      FactWeighs(s.hist, Reporting, i);
      FactWeighs(s.hist, RespondingInRecv, i);
      ReportedAmongGone(s.hist, i);
    }
  }

  lemma {:induction false} OnceInUpto(n: nat, i: nat)
    ensures Weigh(Upto(n), Only(i)) == if i < n then 1 else 0
  {
    if n > 0 {
      UptoSnoc(n - 1, Only(i));
      OnceInUpto(n - 1, i);
    }
  }

  /** The inflight gauge is the number of requests in live queues plus every request ever evicted or
      overwritten; the connection gauge is the number of flows plus every overwrite. Neither is ever
      negative, so the stored 64-bit values never wrap below zero. */
  lemma {:induction false} GaugeDrift(cfg: Config, inputs: seq<Input>)
    ensures var s := Run(cfg, inputs); var live := Queued(s.conns, Unit);
            && s.stats.inflight == live + Number(s, EvictedReqs) + Number(s, OverwrittenReqs) >= 0
            && s.stats.active == |s.conns| + Overwrites(s.hist) >= 0
            && s.stats.dropped == Number(s, EvictedReqs)
            && (s.stats.inflight == live <==> Number(s, EvictedReqs) + Number(s, OverwrittenReqs) == 0)
            && (s.stats.active == |s.conns| <==> Overwrites(s.hist) == 0)
  {
    CountersExplained(cfg, inputs);
    ReportedSplits(Run(cfg, inputs).hist, Unit);
  }

  /** In every run each matched response is the child of the request it was matched with, carries its
      trace id (never an empty one) and shares its duration, whatever happened afterwards. */
  lemma {:induction false} MatchedResponsesAreChildren(cfg: Config, inputs: seq<Input>, k: nat)
    ensures var s := Run(cfg, inputs); k < |s.hist| && IsMatch(s.hist[k]) ==>
              var req, resp := s.hist[k].req, s.hist[k].resp;
              && req < |s.spans| && resp < |s.spans| && req != resp
              && s.spans[resp].parentSpanId == s.spans[req].spanId
              && s.spans[resp].traceId == s.spans[req].traceId != ""
              && s.spans[resp].durationNs == s.spans[req].durationNs
              && (s.hist[k].MatchedInRecv? ==>
                    TagOf(s.spans[resp], "request_seq") == TagOf(s.spans[req], "response_seq") != None)
  {
    var s := Run(cfg, inputs);
    RunSound(cfg, inputs);
    if k < |s.hist| && IsMatch(s.hist[k]) {
      FactIsSettled(s, k);
      assert Placed(s, s.hist[k].req);
      ReqIsNotResp(s, k);
    }
  }

  lemma ReqIsNotResp(s: State, k: nat)
    requires Sound(s) && k < |s.hist| && IsMatch(s.hist[k])
    ensures s.hist[k].req != s.hist[k].resp
  {
    FactIsSettled(s, k);
    assert Placed(s, s.hist[k].req) && Placed(s, s.hist[k].resp);
  }

  /** A span is the request of at most one match and the response of at most one: no request is
      answered twice, not even by a late match after a match in handleRecv. */
  lemma {:induction false} NoRequestMatchedTwice(cfg: Config, inputs: seq<Input>, k: nat, l: nat)
    requires k < l
    ensures var h := Run(cfg, inputs).hist;
            l < |h| && IsMatch(h[k]) && IsMatch(h[l]) ==> h[k].req != h[l].req && h[k].resp != h[l].resp
  {
    RunSound(cfg, inputs);
    var h := Run(cfg, inputs).hist;
    if l < |h| && IsMatch(h[k]) && IsMatch(h[l]) {
      MatchesDiffer(Run(cfg, inputs), k, l);
    }
  }

  lemma MatchesDiffer(s: State, k: nat, l: nat)
    requires Sound(s) && k < l < |s.hist| && IsMatch(s.hist[k]) && IsMatch(s.hist[l])
    ensures s.hist[k].req != s.hist[l].req && s.hist[k].resp != s.hist[l].resp
  {
    assert Placed(s, s.hist[k].req) && Placed(s, s.hist[k].resp);
    TwoFactsWeigh(s.hist, Leaving, s.hist[k].req, k, l);
    TwoFactsWeigh(s.hist, Responding, s.hist[k].resp, k, l);
    assert s.hist[k].req in Leaving(s.hist[k]) && s.hist[l].req in Leaving(s.hist[l]);
    assert s.hist[k].resp in Responding(s.hist[k]) && s.hist[l].resp in Responding(s.hist[l]);
  }

  lemma {:induction false} TwoFactsWeigh(hist: seq<Fact>, part: Fact -> seq<nat>, i: nat, k: nat, l: nat)
    requires k < l < |hist|
    ensures i in part(hist[k]) && i in part(hist[l]) ==> Collect(hist, part, Only(i)) >= 2
  {
    var n := |hist| - 1;
    MemberWeighs(part(hist[n]), i);
    if l < n {
      TwoFactsWeigh(hist[..n], part, i, k, l);
    } else {
      FactWeighs(hist[..n], part, i);
      assert hist[..n][k] == hist[k];
    }
  }

  /** The inflight gauge is not the number of queued requests: with room for one request, the second
      send evicts the first and the gauge reads two. */
  lemma {:induction false} GaugeOvercountsAfterEviction(data: SpanData, zeros: Payload)
    requires zeros[0] == 0
    ensures var e := Event(1, 2, 3, 4, 5, EVENT_SEND_TO, PROTOCOL_GRPC, 4, zeros);
            var s := Run(Config(1, 30, true), [Arrive(e, data, 0), Arrive(e, data, 1)]);
            s.stats.inflight == 2 && Queued(s.conns, Unit) == 1
  {
    var e := Event(1, 2, 3, 4, 5, EVENT_SEND_TO, PROTOCOL_GRPC, 4, zeros);
    var cfg, key := Config(1, 30, true), KeyOf(e);
    var s0 := Init(cfg);
    var s1 := HandleEvent(s0, e, key, data, 0);
    var s2 := HandleEvent(s1, e, key, data, 1);
    FirstSend(s0, e, key, data, 0);
    SecondSend(s1, e, key, data, 1);
    OneQueued(s2.conns, key);
    TwoArrive(cfg, e, data);
  }

  lemma TwoArrive(cfg: Config, e: Event, data: SpanData)
    ensures Run(cfg, [Arrive(e, data, 0), Arrive(e, data, 1)])
         == ProcessEvent(ProcessEvent(Init(cfg), e, data, 0), e, data, 1)
  {
    var inputs := [Arrive(e, data, 0), Arrive(e, data, 1)];
    assert inputs[..1] == [Arrive(e, data, 0)] && inputs[..1][..0] == [];
    assert Run(cfg, inputs[..1]) == ProcessEvent(Init(cfg), e, data, 0);
  }

  lemma OneQueued(conns: map<string, Flow>, key: string)
    requires conns.Keys == {key} && |conns[key].queue| == 1
    ensures Queued(conns, Unit) == 1
  {
    QueuedRemove(conns, key, Unit);
    WeighUnit(SpansOf(conns[key].queue));
    assert conns - {key} == map[];
  }

  lemma FirstSend(s: State, e: Event, key: string, data: SpanData, now: int)
    requires s == Init(Config(1, 30, true)) && e.eventType == EVENT_SEND_TO && IsRequestPayload(e)
    ensures var s' := HandleEvent(s, e, key, data, now);
            s'.conns.Keys == {key} && |s'.conns[key].queue| == 1 && s'.stats.inflight == 1
  {
  }

  lemma SecondSend(s: State, e: Event, key: string, data: SpanData, now: int)
    requires s.cfg == Config(1, 30, true) && e.eventType == EVENT_SEND_TO && IsRequestPayload(e)
    requires s.conns.Keys == {key} && |s.conns[key].queue| == 1 && s.stats.inflight == 1
    ensures var s' := HandleEvent(s, e, key, data, now);
            s'.conns.Keys == {key} && |s'.conns[key].queue| == 1 && s'.stats.inflight == 2
  {
  }
}
