/** The correlator under concurrency: any number of workers interleave the critical sections of
    handleSend, handleRecv and tryCorrelate, while connections are opened and closed around them.
    A flow object lives on when the map forgets it, because a worker may still hold its pointer. */
module CorrelatorWorkers {

  const U64: nat := 0x1_0000_0000_0000_0000

  /** The value an unsigned 64-bit counter holds. */
  function Wrap(x: int): nat { x % U64 }

  /** ^uint64(n - 1), which the program adds in order to take n away. */
  function Complement(n: nat): nat { U64 - 1 - Wrap(n - 1) }

  /** The complement trick also works for n == 0. */
  lemma ComplementSubtracts(x: int, n: nat)
    ensures Wrap(Wrap(x) + Complement(n)) == Wrap(x - n)
  {
    var q, k := x / U64, (n - 1) / U64;
    assert Wrap(x) == x - U64 * q && Complement(n) == U64 - 1 - (n - 1 - U64 * k);
    WrapShift(x - n, 1 - q + k);
  }

  lemma WrapShift(y: int, j: int)
    ensures Wrap(y + U64 * j) == Wrap(y)
  {
    assert (y + U64 * j) / U64 == y / U64 + j;
  }

  // ---------- the shared state and the workers ----------

  /** Who took a request out of its queue; kept for the proofs only. */
  datatype Exit = Matched(worker: nat) | Evicted

  datatype Removal = Removal(seqNo: nat, exit: Exit)

  /** queue holds the sequence numbers in flight. sent and removed are history. */
  datatype Flow = Flow(queue: seq<nat>, seqCounter: nat, sent: nat, removed: seq<Removal>)

  const NEW_FLOW := Flow([], 0, 0, [])

  datatype Op = Connect | Close | Send | Recv | Correlate

  /** Where a worker stands between two critical sections. */
  datatype Worker =
    | Idle
    | Looking(op: Op, key: string)
    | Missing(op: Op, key: string)
    | Pushing(flow: nat)
    | Counting
    | Peeking(op: Op, flow: nat)
    | Taking(op: Op, flow: nat)
    | Uncounting
    | Discounting(n: nat)
    | Orphan(flow: nat)
  {
    predicate Pointing() {
      Pushing? || Peeking? || Taking? || Orphan?
    }
  }

  datatype State = State(
    maxInflight: int, flows: seq<Flow>, conns: map<string, nat>, workers: seq<Worker>,
    inflight: nat, discounted: nat)

  function Init(maxInflight: int, workers: nat): State {
    State(maxInflight, [], map[], seq(workers, _ => Idle), 0, 0)
  }

  // ---------- the critical sections ----------

  /** handleSend under the flow's lock: make room if the queue is full, take a number, append. */
  function Push(f: Flow, maxInflight: int): Flow {
    var f1 := if |f.queue| >= maxInflight && |f.queue| > 0
              then f.(queue := f.queue[1..], removed := f.removed + [Removal(f.queue[0], Evicted)])
              else f;
    var seqNo := Wrap(f.seqCounter + 1);
    f1.(queue := f1.queue + [seqNo], seqCounter := seqNo, sent := f.sent + 1)
  }

  /** handleRecv and tryCorrelate under the flow's lock, the second time: take the front. */
  function Take(f: Flow, w: nat): Flow
    requires f.queue != []
  {
    f.(queue := f.queue[1..], removed := f.removed + [Removal(f.queue[0], Matched(w))])
  }

  /** Where an operation goes once it has its flow. */
  function WithFlow(op: Op, flow: nat): Worker {
    if op == Send then Pushing(flow) else Peeking(op, flow)
  }

  /** Where an operation goes that finds no request. */
  function Unmatched(op: Op, flow: nat): Worker {
    if op == Recv then Orphan(flow) else Idle
  }

  function At(s: State, w: nat, pc: Worker): State
    requires w < |s.workers|
  {
    s.(workers := s.workers[w := pc])
  }

  /** A new flow object, entered in the map. */
  function Allocate(s: State, key: string): State {
    s.(flows := s.flows + [NEW_FLOW], conns := s.conns[key := |s.flows|])
  }

  /** The next atomic step of worker w. */
  function Advance(s: State, w: nat): State
    requires Pointers(s) && w < |s.workers|
  {
    match s.workers[w]
    case Looking(Connect, key) => At(Allocate(s, key), w, Idle)
    case Looking(Close, key) =>
      if key in s.conns
      then At(s.(conns := s.conns - {key}), w, Discounting(|s.flows[s.conns[key]].queue|))
      else At(s, w, Idle)
    case Looking(op, key) =>
      At(s, w, if key in s.conns then WithFlow(op, s.conns[key]) else Missing(op, key))
    case Missing(op, key) =>
      if key in s.conns then At(s, w, WithFlow(op, s.conns[key]))
      else At(Allocate(s, key), w, WithFlow(op, |s.flows|))
    case Pushing(f) => At(s.(flows := s.flows[f := Push(s.flows[f], s.maxInflight)]), w, Counting)
    case Counting => At(s.(inflight := Wrap(s.inflight + 1)), w, Idle)
    case Peeking(op, f) => At(s, w, if s.flows[f].queue == [] then Unmatched(op, f) else Taking(op, f))
    case Taking(op, f) =>
      if s.flows[f].queue == [] then At(s, w, Unmatched(op, f))
      else At(s.(flows := s.flows[f := Take(s.flows[f], w)]), w, Uncounting)
    case Uncounting => At(s.(inflight := Wrap(s.inflight + Complement(1))), w, Idle)
    case Discounting(n) =>
      At(s.(inflight := Wrap(s.inflight + Complement(n)), discounted := s.discounted + n), w, Idle)
    case Orphan(_) => s
    case Idle => s
  }

  /** A schedule: workers are given events, and advance, in any order. */
  datatype Action = Start(w: nat, op: Op, key: string) | Go(w: nat)

  function Step(s: State, a: Action): State
    requires Pointers(s)
  {
    if a.w >= |s.workers| then s
    else match a
      case Start(w, op, key) =>
        if s.workers[w].Idle? || s.workers[w].Orphan? then At(s, w, Looking(op, key)) else s
      case Go(w) => Advance(s, w)
  }

  /** Every flow pointer points to a flow object. */
  predicate Pointers(s: State) {
    && (forall w <- s.workers :: w.Pointing() ==> w.flow < |s.flows|)
    && (forall k <- s.conns :: s.conns[k] < |s.flows|)
  }

  function Run(maxInflight: int, workers: nat, schedule: seq<Action>): (s: State)
    ensures Pointers(s) && |s.workers| == workers && s.maxInflight == maxInflight
  {
    if schedule == [] then Init(maxInflight, workers)
    else
      var before := Run(maxInflight, workers, schedule[..|schedule| - 1]);
      StepKeepsPointers(before, schedule[|schedule| - 1]);
      Step(before, schedule[|schedule| - 1])
  }

  lemma StepKeepsPointers(s: State, a: Action)
    requires Pointers(s)
    ensures Pointers(Step(s, a))
    ensures |Step(s, a).workers| == |s.workers| && Step(s, a).maxInflight == s.maxInflight
  {
    NextWorker(s, a);
    NextConns(s, a);
    hide Push, Take, Wrap, Complement, Advance;
    if a.w < |s.workers| {
      PointersStay(s, Step(s, a), a.w);
    }
  }

  lemma NextWorker(s: State, a: Action)
    requires Pointers(s)
    ensures var s' := Step(s, a);
            && |s.flows| <= |s'.flows| && s'.maxInflight == s.maxInflight
            && if a.w < |s.workers| then
                 && |s'.workers| == |s.workers| && s'.workers == s.workers[a.w := s'.workers[a.w]]
                 && (s'.workers[a.w].Pointing() ==> s'.workers[a.w].flow < |s'.flows|)
               else s' == s
  {
    hide Push, Take, Wrap, Complement;
    if a.w < |s.workers| {
      assert s.workers[a.w] in s.workers;
    }
  }

  lemma NextConns(s: State, a: Action)
    requires Pointers(s)
    ensures forall k <- Step(s, a).conns :: Step(s, a).conns[k] < |Step(s, a).flows|
  {
    hide Push, Take, Wrap, Complement;
  }

  lemma PointersStay(s: State, s': State, w: nat)
    requires Pointers(s) && w < |s.workers| == |s'.workers| && s'.workers == s.workers[w := s'.workers[w]]
    requires |s.flows| <= |s'.flows| && forall k <- s'.conns :: s'.conns[k] < |s'.flows|
    requires s'.workers[w].Pointing() ==> s'.workers[w].flow < |s'.flows|
    ensures Pointers(s')
  {
    forall pc | pc in s'.workers
      ensures pc.Pointing() ==> pc.flow < |s'.flows|
    {
      assert pc in s.workers || pc == s'.workers[w];
    }
  }

  // ---------- first in, first out ----------

  function SeqNos(removed: seq<Removal>): (r: seq<nat>)
    ensures |r| == |removed|
  {
    seq(|removed|, i requires 0 <= i < |removed| => removed[i].seqNo)
  }

  /** The numbers handed out by the first n sends. */
  function Tickets(n: nat): seq<nat> {
    seq(n, i => Wrap(i + 1))
  }

  function Capacity(maxInflight: int): nat {
    if maxInflight >= 1 then maxInflight else 1
  }

  /** What left the queue, in order, followed by what is still in it, is every number handed out. */
  ghost predicate Fifo(f: Flow, maxInflight: int) {
    && SeqNos(f.removed) + f.queue == Tickets(f.sent)
    && f.seqCounter == Wrap(f.sent)
    && |f.queue| <= Capacity(maxInflight)
  }

  lemma RemoveFront(removed: seq<Removal>, queue: seq<nat>, exit: Exit)
    requires queue != []
    ensures SeqNos(removed + [Removal(queue[0], exit)]) + queue[1..] == SeqNos(removed) + queue
  {
  }

  lemma PushFifo(f: Flow, maxInflight: int)
    requires Fifo(f, maxInflight)
    ensures Fifo(Push(f, maxInflight), maxInflight)
  {
    hide SeqNos, Tickets, Wrap;
    var f' := Push(f, maxInflight);
    if |f.queue| >= maxInflight && |f.queue| > 0 {
      RemoveFront(f.removed, f.queue, Evicted);
    }
    NextTicket(f.sent);
    assert SeqNos(f'.removed) + f'.queue == SeqNos(f.removed) + f.queue + [f'.seqCounter];
  }

  lemma NextTicket(sent: nat)
    ensures Wrap(Wrap(sent) + 1) == Wrap(sent + 1)
    ensures Tickets(sent + 1) == Tickets(sent) + [Wrap(sent + 1)]
  {
  }

  lemma TakeFifo(f: Flow, w: nat, maxInflight: int)
    requires Fifo(f, maxInflight) && f.queue != []
    ensures Fifo(Take(f, w), maxInflight)
  {
    RemoveFront(f.removed, f.queue, Matched(w));
  }

  lemma NewFlowFifo(flows: seq<Flow>, maxInflight: int)
    requires forall f <- flows :: Fifo(f, maxInflight)
    ensures forall f <- flows + [NEW_FLOW] :: Fifo(f, maxInflight)
  {
    assert Fifo(NEW_FLOW, maxInflight);
    hide Fifo;
  }

  lemma OneFlowFifo(flows: seq<Flow>, f: nat, flow: Flow, maxInflight: int)
    requires (forall g <- flows :: Fifo(g, maxInflight)) && f < |flows| && Fifo(flow, maxInflight)
    ensures forall g <- flows[f := flow] :: Fifo(g, maxInflight)
  {
    hide Fifo;
  }

  lemma StepFifo(s: State, a: Action)
    requires Pointers(s) && forall f <- s.flows :: Fifo(f, s.maxInflight)
    ensures forall f <- Step(s, a).flows :: Fifo(f, s.maxInflight)
  {
    hide Fifo, Push, Take, Wrap, Complement;
    if a.Go? && a.w < |s.workers| {
      assert s.workers[a.w] in s.workers;
      match s.workers[a.w]
      case Pushing(f) =>
        PushFifo(s.flows[f], s.maxInflight);
        OneFlowFifo(s.flows, f, Push(s.flows[f], s.maxInflight), s.maxInflight);
      case Taking(op, f) =>
        if s.flows[f].queue != [] {
          TakeFifo(s.flows[f], a.w, s.maxInflight);
          OneFlowFifo(s.flows, f, Take(s.flows[f], a.w), s.maxInflight);
        }
      case _ => NewFlowFifo(s.flows, s.maxInflight);
    }
  }

  /** Under every schedule of any number of workers, every flow object that ever existed, also one
      already replaced or closed, hands its requests out in the order of their numbers, none twice
      and none skipped, and holds at most maxInflight of them. */
  lemma {:induction false} EveryFlowIsFifo(maxInflight: int, workers: nat, schedule: seq<Action>, f: nat)
    requires f < |Run(maxInflight, workers, schedule).flows|
    ensures Fifo(Run(maxInflight, workers, schedule).flows[f], maxInflight)
  {
    AllFlowsFifo(maxInflight, workers, schedule);
  }

  lemma {:induction false} AllFlowsFifo(maxInflight: int, workers: nat, schedule: seq<Action>)
    ensures forall f <- Run(maxInflight, workers, schedule).flows :: Fifo(f, maxInflight)
  {
    if schedule != [] {
      AllFlowsFifo(maxInflight, workers, schedule[..|schedule| - 1]);
      StepFifo(Run(maxInflight, workers, schedule[..|schedule| - 1]), schedule[|schedule| - 1]);
    }
  }

  /** Before 2^64 sends on a flow, the numbers that left it are exactly 1, 2, 3, ... */
  lemma {:induction false} NoRequestLeavesTwice(maxInflight: int, workers: nat, schedule: seq<Action>, f: nat, i: nat)
    requires f < |Run(maxInflight, workers, schedule).flows|
    requires Run(maxInflight, workers, schedule).flows[f].sent < U64
    requires i < |Run(maxInflight, workers, schedule).flows[f].removed|
    ensures Run(maxInflight, workers, schedule).flows[f].removed[i].seqNo == i + 1
  {
    hide Run;
    EveryFlowIsFifo(maxInflight, workers, schedule, f);
    var flow := Run(maxInflight, workers, schedule).flows[f];
    assert (SeqNos(flow.removed) + flow.queue)[i] == Tickets(flow.sent)[i];
  }

  // ---------- orphans ----------

  /** The step that marks an orphan. */
  ghost predicate LookedInVain(s: State, w: nat, f: nat) {
    && w < |s.workers| && (s.workers[w] == Peeking(Recv, f) || s.workers[w] == Taking(Recv, f))
    && f < |s.flows| && s.flows[f].queue == []
  }

  lemma OrphanStep(s: State, a: Action, w: nat)
    requires Pointers(s) && w < |s.workers| && Step(s, a).workers[w].Orphan?
    ensures Step(s, a).workers[w] != s.workers[w] ==> a == Go(w) && LookedInVain(s, w, Step(s, a).workers[w].flow)
  {
    NextWorker(s, a);
    if a == Go(w) {
      OrphanAdvance(s, w);
    }
    hide Push, Take, Complement, Wrap, Advance, LookedInVain, Pointers;
  }

  lemma OrphanAdvance(s: State, w: nat)
    requires Pointers(s) && w < |s.workers| && Advance(s, w).workers[w].Orphan?
    ensures Advance(s, w).workers[w] != s.workers[w] ==> LookedInVain(s, w, Advance(s, w).workers[w].flow)
  {
    hide Push, Take, Complement, Wrap;
    assert s.workers[w] in s.workers;
  }

  /** The state after the first k actions. */
  function StateAt(maxInflight: int, workers: nat, schedule: seq<Action>, k: nat): State
    requires k <= |schedule|
  {
    Run(maxInflight, workers, schedule[..k])
  }

  lemma StateAtNext(maxInflight: int, workers: nat, schedule: seq<Action>, k: nat)
    requires k < |schedule|
    ensures StateAt(maxInflight, workers, schedule, k + 1) == Step(StateAt(maxInflight, workers, schedule, k), schedule[k])
  {
    assert schedule[..k + 1][..k] == schedule[..k];
  }

  lemma StartsIdle(maxInflight: int, workers: nat, schedule: seq<Action>, w: nat)
    requires w < workers
    ensures StateAt(maxInflight, workers, schedule, 0).workers[w] == Idle
  {
    assert schedule[..0] == [];
  }

  /** A response is an orphan after n actions only because an earlier step of its own worker, the k-th,
      looked at the flow's queue, the first or the second time, and found it empty. */
  lemma {:induction false} OrphanSawEmptyQueue(
    maxInflight: int, workers: nat, schedule: seq<Action>, n: nat, w: nat) returns (k: nat)
    requires n <= |schedule| && w < workers && StateAt(maxInflight, workers, schedule, n).workers[w].Orphan?
    ensures k < n && schedule[k] == Go(w)
    ensures LookedInVain(StateAt(maxInflight, workers, schedule, k), w,
                         StateAt(maxInflight, workers, schedule, n).workers[w].flow)
    ensures forall j :: k < j <= n ==>
              StateAt(maxInflight, workers, schedule, j).workers[w] == StateAt(maxInflight, workers, schedule, n).workers[w]
    decreases n
  {
    hide Step, Run, LookedInVain, Pointers;
    StartsIdle(maxInflight, workers, schedule, w);
    var before := StateAt(maxInflight, workers, schedule, n - 1);
    StateAtNext(maxInflight, workers, schedule, n - 1);
    OrphanStep(before, schedule[n - 1], w);
    if before.workers[w] == StateAt(maxInflight, workers, schedule, n).workers[w] {
      k := OrphanSawEmptyQueue(maxInflight, workers, schedule, n - 1, w);
    } else {
      k := n - 1;
    }
  }

  // ---------- the inflight gauge ----------

  function Evictions(removed: seq<Removal>): nat {
    if removed == [] then 0
    else Evictions(removed[..|removed| - 1]) + if removed[|removed| - 1].exit.Evicted? then 1 else 0
  }

  /** Requests a flow holds or evicted. */
  function Load(f: Flow): nat {
    |f.queue| + Evictions(f.removed)
  }

  function Backlog(flows: seq<Flow>): nat {
    if flows == [] then 0 else Backlog(flows[..|flows| - 1]) + Load(flows[|flows| - 1])
  }

  /** A worker that has pushed or taken a request but not yet told the gauge. */
  function Owing(w: Worker): int {
    match w
    case Counting => -1
    case Uncounting => 1
    case _ => 0
  }

  function Owed(workers: seq<Worker>): int {
    if workers == [] then 0 else Owed(workers[..|workers| - 1]) + Owing(workers[|workers| - 1])
  }

  lemma {:induction false} BacklogUpdate(flows: seq<Flow>, f: nat, flow: Flow)
    requires f < |flows|
    ensures Backlog(flows[f := flow]) == Backlog(flows) - Load(flows[f]) + Load(flow)
  {
    var n := |flows| - 1;
    if f < n {
      BacklogUpdate(flows[..n], f, flow);
      assert flows[f := flow][..n] == flows[..n][f := flow];
    } else {
      assert flows[f := flow][..n] == flows[..n];
    }
  }

  lemma {:induction false} OwedUpdate(workers: seq<Worker>, w: nat, pc: Worker)
    requires w < |workers|
    ensures Owed(workers[w := pc]) == Owed(workers) - Owing(workers[w]) + Owing(pc)
  {
    var n := |workers| - 1;
    if w < n {
      OwedUpdate(workers[..n], w, pc);
      assert workers[w := pc][..n] == workers[..n][w := pc];
    } else {
      assert workers[w := pc][..n] == workers[..n];
    }
  }

  lemma BacklogSnoc(flows: seq<Flow>)
    ensures Backlog(flows + [NEW_FLOW]) == Backlog(flows)
  {
    assert (flows + [NEW_FLOW])[..|flows|] == flows;
  }

  lemma PushLoad(f: Flow, maxInflight: int)
    ensures Load(Push(f, maxInflight)) == Load(f) + 1
  {
    if f.queue != [] {
      assert (f.removed + [Removal(f.queue[0], Evicted)])[..|f.removed|] == f.removed;
    }
  }

  lemma TakeLoad(f: Flow, w: nat)
    requires f.queue != []
    ensures Load(Take(f, w)) == Load(f) - 1
  {
    assert (f.removed + [Removal(f.queue[0], Matched(w))])[..|f.removed|] == f.removed;
  }

  /** What the gauge would read if it were unbounded. */
  function Ledger(s: State): int {
    Backlog(s.flows) + Owed(s.workers) - s.discounted
  }

  lemma WrapAdd(x: int, y: int)
    ensures Wrap(Wrap(x) + y) == Wrap(x + y)
  {
  }

  /** The three atomic additions. */
  lemma CounterGauge(s: State, w: nat)
    requires Pointers(s) && w < |s.workers| && s.inflight == Wrap(Ledger(s))
    requires s.workers[w].Counting? || s.workers[w].Uncounting? || s.workers[w].Discounting?
    ensures Advance(s, w).inflight == Wrap(Ledger(Advance(s, w)))
  {
    OwedUpdate(s.workers, w, Idle);
    match s.workers[w]
    case Counting => WrapAdd(Ledger(s), 1);
    case Uncounting => ComplementSubtracts(Ledger(s), 1);
    case Discounting(n) => ComplementSubtracts(Ledger(s), n);
  }

  /** The sections that change a queue. */
  lemma QueueGauge(s: State, w: nat)
    requires Pointers(s) && w < |s.workers| && (s.workers[w].Pushing? || s.workers[w].Taking?)
    ensures Advance(s, w).inflight == s.inflight && Ledger(Advance(s, w)) == Ledger(s)
  {
    hide Push, Take, Complement, Wrap, Backlog, Owed, Load;
    assert s.workers[w] in s.workers;
    var f := s.workers[w].flow;
    OwedUpdate(s.workers, w, Advance(s, w).workers[w]);
    if s.workers[w].Pushing? {
      PushLoad(s.flows[f], s.maxInflight);
      BacklogUpdate(s.flows, f, Push(s.flows[f], s.maxInflight));
    } else if s.flows[f].queue != [] {
      TakeLoad(s.flows[f], w);
      BacklogUpdate(s.flows, f, Take(s.flows[f], w));
    }
  }

  /** The sections that only move a worker or the map. */
  lemma MoveGauge(s: State, w: nat)
    requires Pointers(s) && w < |s.workers|
    requires s.workers[w].Looking? || s.workers[w].Missing? || s.workers[w].Peeking? || s.workers[w].Idle? || s.workers[w].Orphan?
    ensures Advance(s, w).inflight == s.inflight && Ledger(Advance(s, w)) == Ledger(s)
  {
    hide Push, Take, Complement, Wrap, Backlog, Owed, Load;
    OwedUpdate(s.workers, w, Advance(s, w).workers[w]);
    BacklogSnoc(s.flows);
  }

  lemma StepGauge(s: State, a: Action)
    requires Pointers(s) && s.inflight == Wrap(Ledger(s))
    ensures Step(s, a).inflight == Wrap(Ledger(Step(s, a)))
  {
    if a.w < |s.workers| {
      var pc := s.workers[a.w];
      if a.Start? {
        OwedUpdate(s.workers, a.w, Looking(a.op, a.key));
      } else if pc.Counting? || pc.Uncounting? || pc.Discounting? {
        CounterGauge(s, a.w);
      } else if pc.Pushing? || pc.Taking? {
        QueueGauge(s, a.w);
      } else {
        MoveGauge(s, a.w);
      }
    }
  }

  /** Under every schedule the gauge is, modulo 2^64: all requests still queued in any flow object,
      plus all evictions, minus what closing connections subtracted, minus the pushes and plus the
      matches whose workers have not reached their atomic addition yet. */
  lemma {:induction false} GaugeLaw(maxInflight: int, workers: nat, schedule: seq<Action>)
    ensures var s := Run(maxInflight, workers, schedule); s.inflight == Wrap(Ledger(s))
  {
    if schedule == [] {
      NobodyOwes(workers);
    } else {
      GaugeLaw(maxInflight, workers, schedule[..|schedule| - 1]);
      StepGauge(Run(maxInflight, workers, schedule[..|schedule| - 1]), schedule[|schedule| - 1]);
    }
  }

  lemma {:induction false} NobodyOwes(n: nat)
    ensures Owed(seq(n, _ => Idle)) == 0
  {
    if n > 0 {
      NobodyOwes(n - 1);
      assert seq(n, _ => Idle)[..n - 1] == seq(n - 1, _ => Idle);
    }
  }

  lemma {:induction false} QuietWorkersOweNothing(workers: seq<Worker>)
    requires forall w <- workers :: !w.Counting? && !w.Uncounting?
    ensures Owed(workers) == 0
  {
    if workers != [] {
      QuietWorkersOweNothing(workers[..|workers| - 1]);
    }
  }

  /** When no worker is between a critical section and its addition, the gauge counts the requests of
      all flow objects, the evictions and the subtractions, and nothing else. */
  lemma {:induction false} GaugeAtRest(maxInflight: int, workers: nat, schedule: seq<Action>)
    requires forall w <- Run(maxInflight, workers, schedule).workers :: !w.Counting? && !w.Uncounting?
    ensures var s := Run(maxInflight, workers, schedule); s.inflight == Wrap(Backlog(s.flows) - s.discounted)
  {
    hide Run, Wrap, Backlog;
    GaugeLaw(maxInflight, workers, schedule);
    QuietWorkersOweNothing(Run(maxInflight, workers, schedule).workers);
  }

  predicate IsClose(a: Action) { a.Start? && a.op.Close? }

  predicate Closing(w: Worker) { w.Discounting? || (w.Looking? && w.op.Close?) }

  lemma StepWithoutClose(s: State, a: Action)
    requires Pointers(s) && !IsClose(a) && s.discounted == 0 && forall w <- s.workers :: !Closing(w)
    ensures Step(s, a).discounted == 0 && forall w <- Step(s, a).workers :: !Closing(w)
  {
    hide Push, Take, Wrap, Complement, Pointers;
    if a.w < |s.workers| {
      assert !Closing(s.workers[a.w]);
    }
  }

  lemma {:induction false} NothingDiscounted(maxInflight: int, workers: nat, schedule: seq<Action>)
    requires forall a <- schedule :: !IsClose(a)
    ensures var s := Run(maxInflight, workers, schedule); s.discounted == 0 && forall w <- s.workers :: !Closing(w)
  {
    if schedule != [] {
      hide Step, Closing;
      var n := |schedule| - 1;
      NothingDiscounted(maxInflight, workers, schedule[..n]);
      StepWithoutClose(Run(maxInflight, workers, schedule[..n]), schedule[n]);
    }
  }

  /** While no connection is closed, the gauge at rest counts the queued and the evicted requests of all flow
      objects. */
  lemma {:induction false} GaugeWithoutClose(maxInflight: int, workers: nat, schedule: seq<Action>)
    requires forall a <- schedule :: !IsClose(a)
    requires forall w <- Run(maxInflight, workers, schedule).workers :: !w.Counting? && !w.Uncounting?
    ensures var s := Run(maxInflight, workers, schedule); s.inflight == Wrap(Backlog(s.flows))
  {
    hide Run, Backlog, Wrap;
    NothingDiscounted(maxInflight, workers, schedule);
    GaugeAtRest(maxInflight, workers, schedule);
  }

  // ---------- schedules in which the gauge goes below zero ----------

  /** One more action, with the state it leads to. */
  lemma Then(schedule: seq<Action>, a: Action, s: State, s': State)
    requires Run(1000, 2, schedule) == s && Step(s, a) == s'
    ensures Run(1000, 2, schedule + [a]) == s'
  {
    assert (schedule + [a])[..|schedule|] == schedule;
  }

  /** A sender finds no flow for its connection. */
  lemma SenderMisses(key: string) returns (schedule: seq<Action>)
    ensures Run(1000, 2, schedule) == State(1000, [], map[], [Missing(Send, key), Idle], 0, 0)
  {
    hide Push, Take, Wrap, Complement;
    var s0 := State(1000, [], map[], [Idle, Idle], 0, 0);
    assert Run(1000, 2, []) == s0;
    hide Run;
    var s1 := s0.(workers := [Looking(Send, key), Idle]);
    var s2 := s0.(workers := [Missing(Send, key), Idle]);
    Then([], Start(0, Send, key), s0, s1);
    Then([] + [Start(0, Send, key)], Go(0), s1, s2);
    schedule := [] + [Start(0, Send, key)] + [Go(0)];
  }

  /** It has made one, has pushed request 1 and is about to count it. */
  lemma SenderPushes(key: string) returns (schedule: seq<Action>)
    ensures Run(1000, 2, schedule) == State(1000, [Push(NEW_FLOW, 1000)], map[key := 0], [Counting, Idle], 0, 0)
  {
    hide Push, Take, Wrap, Complement, Run;
    var missed := SenderMisses(key);
    var s2 := State(1000, [], map[], [Missing(Send, key), Idle], 0, 0);
    var s3 := State(1000, [NEW_FLOW], map[key := 0], [Pushing(0), Idle], 0, 0);
    var s4 := s3.(flows := [Push(NEW_FLOW, 1000)], workers := [Counting, Idle]);
    assert Allocate(s2, key).flows == [NEW_FLOW] && Allocate(s2, key).conns == map[key := 0];
    assert s3.flows[0 := Push(NEW_FLOW, 1000)] == [Push(NEW_FLOW, 1000)];
    Then(missed, Go(0), s2, s3);
    Then(missed + [Go(0)], Go(0), s3, s4);
    schedule := missed + [Go(0)] + [Go(0)];
  }

  /** A receiver finds request 1 and takes it. */
  lemma ReceiverTakes(key: string) returns (schedule: seq<Action>)
    ensures Run(1000, 2, schedule) == State(1000, [Take(Push(NEW_FLOW, 1000), 1)], map[key := 0], [Counting, Uncounting], 0, 0)
  {
    hide Run;
    var f := Push(NEW_FLOW, 1000);
    assert f.queue == [1];
    var sent := SenderPushes(key);
    hide Push, Take, Wrap, Complement;
    var s0 := State(1000, [f], map[key := 0], [Counting, Idle], 0, 0);
    var s1 := s0.(workers := [Counting, Looking(Recv, key)]);
    var s2 := s0.(workers := [Counting, Peeking(Recv, 0)]);
    var s3 := s0.(workers := [Counting, Taking(Recv, 0)]);
    var s4 := s0.(flows := [Take(f, 1)], workers := [Counting, Uncounting]);
    Then(sent, Start(1, Recv, key), s0, s1);
    Then(sent + [Start(1, Recv, key)], Go(1), s1, s2);
    Then(sent + [Start(1, Recv, key)] + [Go(1)], Go(1), s2, s3);
    Then(sent + [Start(1, Recv, key)] + [Go(1)] + [Go(1)], Go(1), s3, s4);
    schedule := sent + [Start(1, Recv, key)] + [Go(1)] + [Go(1)] + [Go(1)];
  }

  /** A receiver can take a request and count it out before its sender has counted it in: with no
      request in flight at all, the gauge then reads 2^64 - 1. */
  lemma {:induction false} GaugeCanUnderflowInPassing(key: string) returns (schedule: seq<Action>)
    ensures Run(1000, 2, schedule).inflight == U64 - 1
    ensures forall f <- Run(1000, 2, schedule).flows :: f.queue == []
  {
    hide Run;
    var f := Push(NEW_FLOW, 1000);
    assert f.queue == [1];
    var taken := ReceiverTakes(key);
    hide Push;
    var s := State(1000, [Take(f, 1)], map[key := 0], [Counting, Uncounting], 0, 0);
    Then(taken, Go(1), s, s.(inflight := U64 - 1, workers := [Counting, Idle]));
    schedule := taken + [Go(1)];
  }

  /** A receiver has seen request 1 and is about to take it; the request is counted. */
  lemma ReceiverWaits(key: string) returns (schedule: seq<Action>)
    ensures Run(1000, 2, schedule) == State(1000, [Push(NEW_FLOW, 1000)], map[key := 0], [Idle, Taking(Recv, 0)], 1, 0)
  {
    hide Run;
    var f := Push(NEW_FLOW, 1000);
    assert f.queue == [1];
    var sent := SenderPushes(key);
    hide Push;
    var s0 := State(1000, [f], map[key := 0], [Counting, Idle], 0, 0);
    var s1 := s0.(inflight := 1, workers := [Idle, Idle]);
    var s2 := s1.(workers := [Idle, Looking(Recv, key)]);
    var s3 := s1.(workers := [Idle, Peeking(Recv, 0)]);
    var s4 := s1.(workers := [Idle, Taking(Recv, 0)]);
    Then(sent, Go(0), s0, s1);
    Then(sent + [Go(0)], Start(1, Recv, key), s1, s2);
    Then(sent + [Go(0)] + [Start(1, Recv, key)], Go(1), s2, s3);
    Then(sent + [Go(0)] + [Start(1, Recv, key)] + [Go(1)], Go(1), s3, s4);
    schedule := sent + [Go(0)] + [Start(1, Recv, key)] + [Go(1)] + [Go(1)];
  }

  /** The sender's worker closes the connection that the receiver waits for. */
  lemma ClosesOnReceiver(key: string) returns (schedule: seq<Action>)
    ensures Run(1000, 2, schedule) == State(1000, [Push(NEW_FLOW, 1000)], map[], [Idle, Taking(Recv, 0)], 0, 1)
  {
    hide Run;
    var f := Push(NEW_FLOW, 1000);
    assert f.queue == [1];
    var waits := ReceiverWaits(key);
    hide Push;
    var s0 := State(1000, [f], map[key := 0], [Idle, Taking(Recv, 0)], 1, 0);
    var s1 := s0.(workers := [Looking(Close, key), Taking(Recv, 0)]);
    var s2 := s1.(conns := map[], workers := [Discounting(1), Taking(Recv, 0)]);
    var s3 := s2.(inflight := 0, discounted := 1, workers := [Idle, Taking(Recv, 0)]);
    assert s1.conns - {key} == map[];
    Then(waits, Start(0, Close, key), s0, s1);
    Then(waits + [Start(0, Close, key)], Go(0), s1, s2);
    Then(waits + [Start(0, Close, key)] + [Go(0)], Go(0), s2, s3);
    schedule := waits + [Start(0, Close, key)] + [Go(0)] + [Go(0)];
  }

  /** A connection is closed while a receiver holds its flow. The close subtracts the request that is still
      queued, and the receiver takes it and subtracts it again. With all workers idle and every queue empty the
      gauge reads 2^64 - 1, and no addition is under way that would put it right. */
  lemma GaugeUnderflowsForGood(key: string) returns (schedule: seq<Action>)
    ensures var s := Run(1000, 2, schedule);
            && s.inflight == U64 - 1
            && (forall w <- s.workers :: w == Idle) && (forall f <- s.flows :: f.queue == []) && s.conns == map[]
  {
    hide Run;
    var f := Push(NEW_FLOW, 1000);
    assert f.queue == [1];
    var closed := ClosesOnReceiver(key);
    hide Push;
    var s3 := State(1000, [f], map[], [Idle, Taking(Recv, 0)], 0, 1);
    var s4 := s3.(flows := [Take(f, 1)], workers := [Idle, Uncounting]);
    var s5 := s4.(inflight := U64 - 1, workers := [Idle, Idle]);
    Then(closed, Go(1), s3, s4);
    Then(closed + [Go(1)], Go(1), s4, s5);
    schedule := closed + [Go(1)] + [Go(1)];
  }
}
