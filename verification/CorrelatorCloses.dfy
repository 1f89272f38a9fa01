/** What closing a connection does to the gauge InflightRequests when other workers still hold its flow. */
module CorrelatorCloses {
  import opened CorrelatorWorkers

  // ---------- the closes of a schedule ----------

  /** The flow objects that a close took out of the map, the evictions that these had counted until then, and the
      requests that were pushed to them and taken from them afterwards. */
  datatype Tally = Tally(closed: set<nat>, kept: nat, pushes: nat, takes: nat)

  const NOTHING := Tally({}, 0, 0, 0)

  /** What the next section of worker w adds. */
  function TallyGo(s: State, t: Tally, w: nat): Tally
    requires Pointers(s) && w < |s.workers|
  {
    match s.workers[w]
    case Looking(Close, key) =>
      if key in s.conns
      then t.(closed := t.closed + {s.conns[key]}, kept := t.kept + Evictions(s.flows[s.conns[key]].removed))
      else t
    case Pushing(f) => if f in t.closed then t.(pushes := t.pushes + 1) else t
    case Taking(op, f) => if f in t.closed && s.flows[f].queue != [] then t.(takes := t.takes + 1) else t
    case _ => t
  }

  /** The action takes a flow out of the map. */
  predicate IsClosing(s: State, a: Action) {
    && a.Go? && a.w < |s.workers|
    && s.workers[a.w].Looking? && s.workers[a.w].op.Close? && s.workers[a.w].key in s.conns
  }

  function TallyStep(s: State, t: Tally, a: Action): Tally
    requires Pointers(s)
  {
    if a.Go? && a.w < |s.workers| then TallyGo(s, t, a.w) else t
  }

  function TallyOf(maxInflight: int, workers: nat, schedule: seq<Action>): Tally {
    if schedule == [] then NOTHING
    else
      var n := |schedule| - 1;
      TallyStep(Run(maxInflight, workers, schedule[..n]), TallyOf(maxInflight, workers, schedule[..n]), schedule[n])
  }

  // ---------- closed flows are out of reach ----------

  /** No flow is in the map twice, and no closed one is. */
  ghost predicate Separate(s: State, t: Tally) {
    && (forall f <- t.closed :: f < |s.flows|)
    && (forall k <- s.conns :: s.conns[k] !in t.closed)
    && (forall k, j :: k in s.conns && j in s.conns && s.conns[k] == s.conns[j] ==> k == j)
  }

  lemma SeparateAllocated(s: State, t: Tally, key: string)
    requires Pointers(s) && Separate(s, t)
    ensures Separate(Allocate(s, key), t)
  {
  }

  lemma SeparateClosed(s: State, t: Tally, key: string, kept: nat)
    requires Pointers(s) && Separate(s, t) && key in s.conns
    ensures Separate(s.(conns := s.conns - {key}), t.(closed := t.closed + {s.conns[key]}, kept := kept))
  {
  }

  /** Queues, workers and counters do not matter. */
  lemma SeparateAlike(s: State, t: Tally, s': State, t': Tally)
    requires Separate(s, t) && s'.conns == s.conns && |s'.flows| == |s.flows| && t'.closed == t.closed
    ensures Separate(s', t')
  {
  }

  lemma StepSeparate(s: State, t: Tally, a: Action)
    requires Pointers(s) && Separate(s, t)
    ensures Separate(Step(s, a), TallyStep(s, t, a))
  {
    hide Push, Take, Wrap, Complement, Evictions, Separate;
    var s', t' := Step(s, a), TallyStep(s, t, a);
    if IsClosing(s, a) {
      var key := s.workers[a.w].key;
      SeparateClosed(s, t, key, t'.kept);
      SeparateAlike(s.(conns := s.conns - {key}), t.(closed := t'.closed, kept := t'.kept), s', t');
    } else if s'.conns == s.conns && |s'.flows| == |s.flows| {
      SeparateAlike(s, t, s', t');
    } else {
      var key := s.workers[a.w].key;
      SeparateAllocated(s, t, key);
      SeparateAlike(Allocate(s, key), t, s', t');
    }
  }

  // ---------- what closing still has to subtract ----------

  function Debt(w: Worker): nat { if w.Discounting? then w.n else 0 }

  function Due(workers: seq<Worker>): nat {
    if workers == [] then 0 else Due(workers[..|workers| - 1]) + Debt(workers[|workers| - 1])
  }

  lemma {:induction false} DueUpdate(workers: seq<Worker>, w: nat, pc: Worker)
    requires w < |workers|
    ensures Due(workers[w := pc]) == Due(workers) - Debt(workers[w]) + Debt(pc)
  {
    var n := |workers| - 1;
    if w < n {
      DueUpdate(workers[..n], w, pc);
      assert workers[w := pc][..n] == workers[..n][w := pc];
    } else {
      assert workers[w := pc][..n] == workers[..n];
    }
  }

  lemma {:induction false} NothingDue(workers: seq<Worker>)
    requires forall w <- workers :: !w.Discounting?
    ensures Due(workers) == 0
  {
    if workers != [] {
      NothingDue(workers[..|workers| - 1]);
    }
  }

  // ---------- the load of the flows that were not closed ----------

  function OpenLoad(flows: seq<Flow>, closed: set<nat>): nat {
    if flows == [] then 0
    else
      var n := |flows| - 1;
      OpenLoad(flows[..n], closed) + if n in closed then 0 else Load(flows[n])
  }

  lemma {:induction false} OpenLoadUpdate(flows: seq<Flow>, closed: set<nat>, f: nat, flow: Flow)
    requires f < |flows|
    ensures OpenLoad(flows[f := flow], closed) ==
            OpenLoad(flows, closed) + if f in closed then 0 else Load(flow) - Load(flows[f])
  {
    hide Load;
    var n := |flows| - 1;
    if f < n {
      OpenLoadUpdate(flows[..n], closed, f, flow);
      assert flows[f := flow][..n] == flows[..n][f := flow];
    } else {
      assert flows[f := flow][..n] == flows[..n];
    }
  }

  lemma OpenLoadSnoc(flows: seq<Flow>, closed: set<nat>)
    ensures OpenLoad(flows + [NEW_FLOW], closed) == OpenLoad(flows, closed)
  {
    assert (flows + [NEW_FLOW])[..|flows|] == flows;
  }

  lemma {:induction false} OpenLoadClose(flows: seq<Flow>, closed: set<nat>, f: nat)
    requires f !in closed
    ensures OpenLoad(flows, closed + {f}) == OpenLoad(flows, closed) - if f < |flows| then Load(flows[f]) else 0
  {
    hide Load;
    if flows != [] {
      OpenLoadClose(flows[..|flows| - 1], closed, f);
    }
  }

  // ---------- the law ----------

  /** What is queued or was evicted, less what closing has subtracted or is about to subtract. */
  function Number(s: State): int { Backlog(s.flows) - s.discounted - Due(s.workers) }

  /** The same by events: the load of the flows that were not closed, the evictions of the closed ones, and what
      happened to these later. */
  function Explained(s: State, t: Tally): int { OpenLoad(s.flows, t.closed) + t.kept + t.pushes - t.takes }

  /** A section that changes a queue. */
  lemma QueueTally(s: State, t: Tally, w: nat)
    requires Pointers(s) && w < |s.workers| && (s.workers[w].Pushing? || s.workers[w].Taking?)
    ensures Number(Advance(s, w)) - Number(s) == Explained(Advance(s, w), TallyGo(s, t, w)) - Explained(s, t)
  {
    hide Load, Push, Take, Backlog, OpenLoad, Due, Wrap, Complement;
    assert s.workers[w] in s.workers;
    var f := s.workers[w].flow;
    DueUpdate(s.workers, w, Advance(s, w).workers[w]);
    if s.workers[w].Pushing? {
      PushLoad(s.flows[f], s.maxInflight);
      BacklogUpdate(s.flows, f, Push(s.flows[f], s.maxInflight));
      OpenLoadUpdate(s.flows, t.closed, f, Push(s.flows[f], s.maxInflight));
    } else if s.flows[f].queue != [] {
      TakeLoad(s.flows[f], w);
      BacklogUpdate(s.flows, f, Take(s.flows[f], w));
      OpenLoadUpdate(s.flows, t.closed, f, Take(s.flows[f], w));
    }
  }

  /** The section that takes a flow out of the map. */
  lemma CloseTally(s: State, t: Tally, w: nat)
    requires Pointers(s) && Separate(s, t) && w < |s.workers| && s.workers[w].Looking? && s.workers[w].op.Close?
    ensures Number(Advance(s, w)) - Number(s) == Explained(Advance(s, w), TallyGo(s, t, w)) - Explained(s, t)
  {
    hide Push, Take, Backlog, OpenLoad, Due, Evictions, Wrap, Complement;
    DueUpdate(s.workers, w, Advance(s, w).workers[w]);
    var key := s.workers[w].key;
    if key in s.conns {
      OpenLoadClose(s.flows, t.closed, s.conns[key]);
    }
  }

  /** Any other section. */
  lemma OtherTally(s: State, t: Tally, w: nat)
    requires Pointers(s) && w < |s.workers| && !s.workers[w].Pushing? && !s.workers[w].Taking?
    requires !(s.workers[w].Looking? && s.workers[w].op.Close?)
    ensures Number(Advance(s, w)) == Number(s) && TallyGo(s, t, w) == t && Explained(Advance(s, w), t) == Explained(s, t)
  {
    hide Push, Take, Load, Backlog, OpenLoad, Due, Evictions, Wrap, Complement;
    DueUpdate(s.workers, w, Advance(s, w).workers[w]);
    BacklogSnoc(s.flows);
    OpenLoadSnoc(s.flows, t.closed);
  }

  lemma StepTally(s: State, t: Tally, a: Action)
    requires Pointers(s) && Separate(s, t) && Number(s) == Explained(s, t)
    ensures Number(Step(s, a)) == Explained(Step(s, a), TallyStep(s, t, a))
  {
    hide Advance, TallyGo, Backlog, OpenLoad, Due;
    if a.w < |s.workers| {
      var pc := s.workers[a.w];
      if a.Start? {
        DueUpdate(s.workers, a.w, Looking(a.op, a.key));
      } else if pc.Pushing? || pc.Taking? {
        QueueTally(s, t, a.w);
      } else if pc.Looking? && pc.op.Close? {
        CloseTally(s, t, a.w);
      } else {
        OtherTally(s, t, a.w);
      }
    }
  }

  lemma {:induction false} RunTally(maxInflight: int, workers: nat, schedule: seq<Action>)
    ensures var s, t := Run(maxInflight, workers, schedule), TallyOf(maxInflight, workers, schedule);
            Separate(s, t) && Number(s) == Explained(s, t)
  {
    hide Step, TallyStep, Number, Explained, Separate;
    if schedule == [] {
      StartTally(maxInflight, workers);
    } else {
      var n := |schedule| - 1;
      var s, t := Run(maxInflight, workers, schedule[..n]), TallyOf(maxInflight, workers, schedule[..n]);
      RunTally(maxInflight, workers, schedule[..n]);
      StepSeparate(s, t, schedule[n]);
      StepTally(s, t, schedule[n]);
    }
  }

  lemma StartTally(maxInflight: int, workers: nat)
    ensures Separate(Init(maxInflight, workers), NOTHING)
    ensures Number(Init(maxInflight, workers)) == Explained(Init(maxInflight, workers), NOTHING)
  {
    NothingDue(seq(workers, _ => Idle));
  }

  /** No worker is between a critical section and its atomic addition. */
  predicate AtRest(s: State) {
    forall w <- s.workers :: !w.Counting? && !w.Uncounting? && !w.Discounting?
  }

  /** At rest the gauge counts, modulo 2^64: the requests queued in the flows that were not closed and the
      evictions from them; the evictions from the closed ones before their close; and what was pushed to these
      later, less what was taken from them. */
  lemma {:induction false} GaugeByEvents(maxInflight: int, workers: nat, schedule: seq<Action>)
    requires AtRest(Run(maxInflight, workers, schedule))
    ensures var s, t := Run(maxInflight, workers, schedule), TallyOf(maxInflight, workers, schedule);
            s.inflight == Wrap(OpenLoad(s.flows, t.closed) + t.kept + t.pushes - t.takes)
  {
    hide Run, TallyOf, Wrap, Backlog, OpenLoad;
    GaugeAtRest(maxInflight, workers, schedule);
    RunTally(maxInflight, workers, schedule);
    NothingDue(Run(maxInflight, workers, schedule).workers);
  }

  // ---------- when the gauge is wrapped ----------

  lemma StepGrows(s: State, t: Tally, a: Action)
    requires Pointers(s)
    ensures Backlog(Step(s, a).flows) <= Backlog(s.flows) + 1 && TallyStep(s, t, a).takes <= t.takes + 1
    ensures Step(s, a).discounted >= s.discounted
  {
    hide Load, Push, Take, Backlog, Wrap, Complement, Evictions;
    if a.Go? && a.w < |s.workers| {
      var pc := s.workers[a.w];
      assert pc in s.workers;
      BacklogSnoc(s.flows);
      if pc.Pushing? {
        PushLoad(s.flows[pc.flow], s.maxInflight);
        BacklogUpdate(s.flows, pc.flow, Push(s.flows[pc.flow], s.maxInflight));
      } else if pc.Taking? && s.flows[pc.flow].queue != [] {
        TakeLoad(s.flows[pc.flow], a.w);
        BacklogUpdate(s.flows, pc.flow, Take(s.flows[pc.flow], a.w));
      }
    }
  }

  lemma {:induction false} RunGrows(maxInflight: int, workers: nat, schedule: seq<Action>)
    ensures Backlog(Run(maxInflight, workers, schedule).flows) <= |schedule|
    ensures TallyOf(maxInflight, workers, schedule).takes <= |schedule|
  {
    hide Step, TallyStep;
    if schedule != [] {
      var n := |schedule| - 1;
      var s, t := Run(maxInflight, workers, schedule[..n]), TallyOf(maxInflight, workers, schedule[..n]);
      RunGrows(maxInflight, workers, schedule[..n]);
      StepGrows(s, t, schedule[n]);
    }
  }

  /** In fewer than 2^64 steps the gauge at rest is that number itself, unless more requests were taken from closed
      flows than the rest makes up for; exactly then it reads 2^64 too much. */
  lemma {:induction false} GaugeWrapsIff(maxInflight: int, workers: nat, schedule: seq<Action>)
    requires AtRest(Run(maxInflight, workers, schedule)) && |schedule| < U64
    ensures var s, t := Run(maxInflight, workers, schedule), TallyOf(maxInflight, workers, schedule);
            var number := OpenLoad(s.flows, t.closed) + t.kept + t.pushes - t.takes;
            s.inflight == if t.takes > OpenLoad(s.flows, t.closed) + t.kept + t.pushes then number + U64 else number
  {
    hide Run, TallyOf, Backlog, OpenLoad;
    GaugeByEvents(maxInflight, workers, schedule);
    RunTally(maxInflight, workers, schedule);
    RunGrows(maxInflight, workers, schedule);
  }

  // ---------- closes that meet nobody ----------

  /** The worker is about to change or to read the queue of this flow. */
  predicate Holds(w: Worker, f: nat) {
    (w.Pushing? || w.Peeking? || w.Taking?) && w.flow == f
  }

  /** The action closes a connection whose flow a worker holds. */
  predicate Meets(s: State, a: Action) {
    IsClosing(s, a) && exists w <- s.workers :: Holds(w, s.conns[s.workers[a.w].key])
  }

  predicate MeetsNobody(maxInflight: int, workers: nat, schedule: seq<Action>) {
    schedule == [] ||
    var n := |schedule| - 1;
    MeetsNobody(maxInflight, workers, schedule[..n]) && !Meets(Run(maxInflight, workers, schedule[..n]), schedule[n])
  }

  /** No worker holds a closed flow, and none was used. */
  ghost predicate Clear(s: State, t: Tally) {
    t.pushes == 0 && t.takes == 0 && forall w <- s.workers, f <- t.closed :: !Holds(w, f)
  }

  /** No worker comes to hold a closed flow. */
  lemma NextHold(s: State, t: Tally, w: nat, f: nat)
    requires Pointers(s) && Separate(s, t) && w < |s.workers| && f in t.closed && !Holds(s.workers[w], f)
    ensures !Holds(Advance(s, w).workers[w], f)
  {
    hide Push, Take, Wrap, Complement;
  }

  lemma ClearClosed(s: State, t: Tally, w: nat, f: nat)
    requires Pointers(s) && Clear(s, t) && w < |s.workers| && f in TallyGo(s, t, w).closed
    requires !Meets(s, Go(w))
    ensures forall v <- s.workers :: !Holds(v, f)
  {
    hide Evictions;
  }

  lemma ClearTally(s: State, t: Tally, w: nat)
    requires Pointers(s) && Clear(s, t) && w < |s.workers|
    ensures var t' := TallyGo(s, t, w);
            t'.pushes == 0 && t'.takes == 0 && (t'.closed == t.closed || Advance(s, w).workers[w].Discounting?)
  {
    hide Evictions, Push, Take, Wrap, Complement;
    assert s.workers[w] in s.workers;
  }

  lemma OneMoves(s: State, a: Action, v: nat)
    requires Pointers(s) && v < |s.workers| && v != a.w
    ensures Step(s, a).workers[v] == s.workers[v]
  {
    hide Push, Take, Wrap, Complement, Pointers;
  }

  lemma StepApart(s: State, t: Tally, a: Action)
    requires Pointers(s) && Separate(s, t) && Clear(s, t) && !Meets(s, a)
    ensures Clear(Step(s, a), TallyStep(s, t, a))
  {
    hide Pointers, Separate, TallyGo, Meets, Advance;
    if a.Go? && a.w < |s.workers| {
      var s', t' := Step(s, a), TallyGo(s, t, a.w);
      assert a == Go(a.w);
      StepKeepsPointers(s, a);
      ClearTally(s, t, a.w);
      forall v, f | 0 <= v < |s'.workers| && f in t'.closed
        ensures !Holds(s'.workers[v], f)
      {
        ClearClosed(s, t, a.w, f);
        if v != a.w {
          OneMoves(s, a, v);
          assert s'.workers[v] in s.workers;
        } else if t'.closed == t.closed {
          assert s.workers[v] in s.workers;
          NextHold(s, t, a.w, f);
        }
      }
    }
  }

  lemma {:induction false} RunApart(maxInflight: int, workers: nat, schedule: seq<Action>)
    requires MeetsNobody(maxInflight, workers, schedule)
    ensures Clear(Run(maxInflight, workers, schedule), TallyOf(maxInflight, workers, schedule))
  {
    hide Step, TallyStep, Separate, Clear, Meets;
    if schedule == [] {
      StartApart(maxInflight, workers);
    } else {
      var n := |schedule| - 1;
      RunApart(maxInflight, workers, schedule[..n]);
      RunTally(maxInflight, workers, schedule[..n]);
      StepApart(Run(maxInflight, workers, schedule[..n]), TallyOf(maxInflight, workers, schedule[..n]), schedule[n]);
    }
  }

  lemma StartApart(maxInflight: int, workers: nat)
    ensures Clear(Init(maxInflight, workers), NOTHING)
  {
  }

  /** If no close meets a worker that holds the flow, the gauge at rest is exactly the requests that are queued in
      the flows that were not closed, and all evictions. */
  lemma {:induction false} GaugeRightIfMeetsNobody(maxInflight: int, workers: nat, schedule: seq<Action>)
    requires AtRest(Run(maxInflight, workers, schedule)) && |schedule| < U64
    requires MeetsNobody(maxInflight, workers, schedule)
    ensures var s, t := Run(maxInflight, workers, schedule), TallyOf(maxInflight, workers, schedule);
            s.inflight == OpenLoad(s.flows, t.closed) + t.kept
  {
    hide Run, TallyOf, OpenLoad;
    GaugeWrapsIff(maxInflight, workers, schedule);
    RunApart(maxInflight, workers, schedule);
  }
}
