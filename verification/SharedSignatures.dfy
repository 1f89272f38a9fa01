/** Several calls that compress traces at the same time. A call puts its signature into the cache under a lock and
    looks at its count later, without one; the cache holds the very same object, which other calls count up. */
module SharedSignatures {
  import opened Permutations

  /** structure, operations and depth belong to the hash. */
  datatype Signature = Signature(hash: string, count: nat)

  /** Between the critical sections: about to look up a signature, or holding the pointer to its own. */
  datatype Worker = Idle | Signing(hash: string) | Holding(sig: nat)

  /** What a worker saw when it looked at its signature; the tag for duplicates is written if count > 1. */
  datatype Look = Look(worker: nat, sig: nat, count: nat)

  /** Objects are referred to by their number; hits and looks are history. */
  datatype State = State(maxCacheSize: int, sigs: seq<Signature>, cache: map<string, nat>, workers: seq<Worker>,
                         hits: seq<nat>, looks: seq<Look>)

  function Init(maxCacheSize: int, workers: nat): State {
    State(maxCacheSize, [], map[], seq(workers, _ => Idle), [], [])
  }

  /** Every pointer points to an object, and the cache has every object under its hash. */
  predicate Pointers(s: State) {
    && (forall h <- s.cache :: s.cache[h] < |s.sigs| && s.sigs[s.cache[h]].hash == h)
    && (forall w <- s.workers :: w.Holding? ==> w.sig < |s.sigs|)
    && (forall i <- s.hits :: i < |s.sigs|)
  }

  function At(s: State, w: nat, pc: Worker): State
    requires w < |s.workers|
  {
    s.(workers := s.workers[w := pc])
  }

  /** A signature that was seen once goes first. */
  predicate MayGo(s: State, victim: string)
    requires Pointers(s)
  {
    victim in s.cache && (s.sigs[s.cache[victim]].count == 1 || forall h <- s.cache :: s.sigs[s.cache[h]].count != 1)
  }

  /** The critical section: a known signature is counted once more, a new one enters the cache. The worker keeps
      its own object in either case. A step in which a signature would go that may not is not taken. */
  function LookUp(s: State, w: nat, hash: string, victim: string): State
    requires Pointers(s) && w < |s.workers|
  {
    var own := |s.sigs|;
    var s1 := At(s.(sigs := s.sigs + [Signature(hash, 1)]), w, Holding(own));
    if hash in s.cache then
      var i := s.cache[hash];
      s1.(sigs := s1.sigs[i := Signature(hash, s.sigs[i].count + 1)], hits := s.hits + [i])
    else if |s.cache| < s.maxCacheSize || s.cache == map[] then s1.(cache := s.cache[hash := own])
    else if MayGo(s, victim) then s1.(cache := (s.cache - {victim})[hash := own])
    else s
  }

  datatype Action = Start(w: nat, hash: string) | Go(w: nat, victim: string)

  function Step(s: State, a: Action): State
    requires Pointers(s)
  {
    if a.w >= |s.workers| then s
    else
      match (a, s.workers[a.w])
      case (Start(w, hash), Idle) => At(s, w, Signing(hash))
      case (Go(w, victim), Signing(hash)) => LookUp(s, w, hash, victim)
      case (Go(w, _), Holding(i)) => At(s.(looks := s.looks + [Look(w, i, s.sigs[i].count)]), w, Idle)
      case _ => s
  }

  function Run(maxCacheSize: int, workers: nat, schedule: seq<Action>): (s: State)
    ensures Pointers(s) && |s.workers| == workers
  {
    if schedule == [] then Init(maxCacheSize, workers)
    else
      var before := Run(maxCacheSize, workers, schedule[..|schedule| - 1]);
      StepKeepsPointers(before, schedule[|schedule| - 1]);
      Step(before, schedule[|schedule| - 1])
  }

  lemma StepKeepsPointers(s: State, a: Action)
    requires Pointers(s)
    ensures Pointers(Step(s, a)) && |Step(s, a).workers| == |s.workers|
  {
    var t := Step(s, a);
    if a.w < |s.workers| {
      hide MayGo;
      assert |s.sigs| <= |t.sigs| && forall i :: 0 <= i < |s.sigs| ==> t.sigs[i].hash == s.sigs[i].hash;
      assert t.workers == s.workers[a.w := t.workers[a.w]];
    }
  }

  // ---------- what a signature counts ----------

  /** Every object counts its own computation and the hits on it. */
  ghost predicate CountsHits(s: State) {
    forall i: nat :: i < |s.sigs| ==> s.sigs[i].count == 1 + Count(i, s.hits)
  }

  lemma StepCountsHits(s: State, a: Action)
    requires Pointers(s) && CountsHits(s)
    ensures CountsHits(Step(s, a))
  {
    hide Count;
    var t := Step(s, a);
    forall i: nat | i < |t.sigs|
      ensures t.sigs[i].count == 1 + Count(i, t.hits)
    {
      if i == |s.sigs| {
        CountMember(i, s.hits);
      }
      if |t.hits| > |s.hits| {
        CountConcat(i, s.hits, [t.hits[|s.hits|]]);
        CountOne(i, t.hits[|s.hits|]);
      }
    }
  }

  lemma {:induction false} RunCountsHits(maxCacheSize: int, workers: nat, schedule: seq<Action>)
    ensures CountsHits(Run(maxCacheSize, workers, schedule))
  {
    hide Step, CountsHits;
    if schedule == [] {
      InitCountsHits(maxCacheSize, workers);
    } else {
      var n := |schedule| - 1;
      RunCountsHits(maxCacheSize, workers, schedule[..n]);
      StepCountsHits(Run(maxCacheSize, workers, schedule[..n]), schedule[n]);
    }
  }

  lemma InitCountsHits(maxCacheSize: int, workers: nat)
    ensures CountsHits(Init(maxCacheSize, workers))
  {
  }

  // ---------- when the tag is written ----------

  function StateAt(maxCacheSize: int, workers: nat, schedule: seq<Action>, k: nat): State
    requires k <= |schedule|
  {
    Run(maxCacheSize, workers, schedule[..k])
  }

  lemma StateAtNext(maxCacheSize: int, workers: nat, schedule: seq<Action>, k: nat)
    requires k < |schedule|
    ensures StateAt(maxCacheSize, workers, schedule, k + 1) == Step(StateAt(maxCacheSize, workers, schedule, k), schedule[k])
  {
    assert schedule[..k + 1][..k] == schedule[..k];
  }

  /** The action is a worker's critical section that finds object i under its hash. */
  predicate HitOn(s: State, a: Action, i: nat) {
    && a.Go? && a.w < |s.workers| && s.workers[a.w].Signing?
    && s.workers[a.w].hash in s.cache && s.cache[s.workers[a.w].hash] == i
  }

  lemma StepHits(s: State, a: Action, i: nat)
    requires Pointers(s)
    ensures i in Step(s, a).hits <==> i in s.hits || HitOn(s, a, i)
  {
  }

  predicate HitAt(maxCacheSize: int, workers: nat, schedule: seq<Action>, k: nat, i: nat)
    requires k < |schedule|
  {
    HitOn(StateAt(maxCacheSize, workers, schedule, k), schedule[k], i)
  }

  lemma NextHits(maxCacheSize: int, workers: nat, schedule: seq<Action>, n: nat, i: nat)
    requires n < |schedule|
    ensures i in StateAt(maxCacheSize, workers, schedule, n + 1).hits <==>
            i in StateAt(maxCacheSize, workers, schedule, n).hits || HitAt(maxCacheSize, workers, schedule, n, i)
  {
    hide Step, Run, HitOn;
    StateAtNext(maxCacheSize, workers, schedule, n);
    StepHits(StateAt(maxCacheSize, workers, schedule, n), schedule[n], i);
  }

  lemma NoHitsYet(maxCacheSize: int, workers: nat, schedule: seq<Action>)
    ensures StateAt(maxCacheSize, workers, schedule, 0).hits == []
  {
    assert schedule[..0] == [];
  }

  lemma {:induction false} HitsFound(maxCacheSize: int, workers: nat, schedule: seq<Action>, n: nat, i: nat)
    requires n <= |schedule|
    ensures i in StateAt(maxCacheSize, workers, schedule, n).hits <==>
            exists k :: 0 <= k < n && HitAt(maxCacheSize, workers, schedule, k, i)
  {
    hide Step, Run, HitAt, StateAt;
    if n == 0 {
      NoHitsYet(maxCacheSize, workers, schedule);
    } else {
      HitsFound(maxCacheSize, workers, schedule, n - 1, i);
      NextHits(maxCacheSize, workers, schedule, n - 1, i);
    }
  }

  /** A worker comes to hold an object only by computing it, as a new one. */
  lemma HeldBefore(s: State, a: Action, w: nat, i: nat)
    requires Pointers(s) && w < |s.workers| && i < |s.sigs| && Step(s, a).workers[w] == Holding(i)
    ensures s.workers[w] == Holding(i) && |s.sigs| <= |Step(s, a).sigs|
    ensures Step(s, a).sigs[i].hash == s.sigs[i].hash
  {
  }

  lemma StepGrows(s: State, a: Action)
    requires Pointers(s)
    ensures |s.sigs| <= |Step(s, a).sigs|
  {
  }

  /** An object that there is after k steps, and that worker w holds after n, was held by w all the time. */
  lemma {:induction false} HeldSince(maxCacheSize: int, workers: nat, schedule: seq<Action>, k: nat, n: nat, w: nat, i: nat)
    requires k <= n <= |schedule| && w < workers
    requires i < |StateAt(maxCacheSize, workers, schedule, k).sigs|
    requires StateAt(maxCacheSize, workers, schedule, n).workers[w] == Holding(i)
    ensures forall j :: k <= j <= n ==> StateAt(maxCacheSize, workers, schedule, j).workers[w] == Holding(i)
    ensures var s, t := StateAt(maxCacheSize, workers, schedule, k), StateAt(maxCacheSize, workers, schedule, n);
            i < |t.sigs| && t.sigs[i].hash == s.sigs[i].hash
    decreases n - k
  {
    hide Step, Run;
    if k < n {
      var s := StateAt(maxCacheSize, workers, schedule, k);
      StateAtNext(maxCacheSize, workers, schedule, k);
      StepGrows(s, schedule[k]);
      HeldSince(maxCacheSize, workers, schedule, k + 1, n, w, i);
      HeldBefore(s, schedule[k], w, i);
    } else {
      PointerInRange(StateAt(maxCacheSize, workers, schedule, n), w);
    }
  }

  lemma PointerInRange(s: State, w: nat)
    requires Pointers(s) && w < |s.workers| && s.workers[w].Holding?
    ensures s.workers[w].sig < |s.sigs|
  {
    assert s.workers[w] in s.workers;
  }

  /** Another worker's critical section on a signature of this hash, while w held object i. */
  ghost predicate CountedUpBy(s: State, a: Action, w: nat, i: nat) {
    && HitOn(s, a, i) && a.w != w && w < |s.workers| && s.workers[w] == Holding(i)
    && i < |s.sigs| && s.workers[a.w].hash == s.sigs[i].hash
  }

  lemma HitIsByAnother(maxCacheSize: int, workers: nat, schedule: seq<Action>, k: nat, n: nat, w: nat, i: nat)
    requires k < n <= |schedule| && w < workers && StateAt(maxCacheSize, workers, schedule, n).workers[w] == Holding(i)
    ensures HitAt(maxCacheSize, workers, schedule, k, i) <==>
            CountedUpBy(StateAt(maxCacheSize, workers, schedule, k), schedule[k], w, i)
  {
    hide Run;
    if HitAt(maxCacheSize, workers, schedule, k, i) {
      HeldSince(maxCacheSize, workers, schedule, k, n, w, i);
    }
  }

  /** When a worker looks at its signature, it finds a count above one, and writes the tag for duplicates, exactly
      if in the meantime another worker's call looked up a signature with the same hash and found this one in the
      cache. */
  lemma {:induction false} TagWrittenIff(maxCacheSize: int, workers: nat, schedule: seq<Action>, n: nat, w: nat)
    requires n <= |schedule| && w < workers && StateAt(maxCacheSize, workers, schedule, n).workers[w].Holding?
    ensures var s := StateAt(maxCacheSize, workers, schedule, n); var i := s.workers[w].sig;
            && i < |s.sigs|
            && (s.sigs[i].count > 1 <==>
                exists k :: 0 <= k < n && CountedUpBy(StateAt(maxCacheSize, workers, schedule, k), schedule[k], w, i))
  {
    hide Run, Step, HitAt, Count;
    var s := StateAt(maxCacheSize, workers, schedule, n);
    var i := s.workers[w].sig;
    PointerInRange(s, w);
    RunCountsHits(maxCacheSize, workers, schedule[..n]);
    CountMember(i, s.hits);
    HitsFound(maxCacheSize, workers, schedule, n, i);
    forall k | 0 <= k < n
      ensures HitAt(maxCacheSize, workers, schedule, k, i) <==>
              CountedUpBy(StateAt(maxCacheSize, workers, schedule, k), schedule[k], w, i)
    {
      HitIsByAnother(maxCacheSize, workers, schedule, k, n, w, i);
    }
  }

  /** Calls that follow each other never write the tag. */
  lemma {:induction false} OneWorkerNeverTags(maxCacheSize: int, schedule: seq<Action>, n: nat)
    requires n <= |schedule| && StateAt(maxCacheSize, 1, schedule, n).workers[0].Holding?
    ensures var s := StateAt(maxCacheSize, 1, schedule, n);
            s.workers[0].sig < |s.sigs| && s.sigs[s.workers[0].sig].count == 1
  {
    hide Run, Step, Count;
    TagWrittenIff(maxCacheSize, 1, schedule, n, 0);
    RunCountsHits(maxCacheSize, 1, schedule[..n]);
  }

  // ---------- a schedule that writes the tag ----------

  lemma Then(workers: nat, schedule: seq<Action>, a: Action, s: State, s': State)
    requires Run(10, workers, schedule) == s && Step(s, a) == s'
    ensures Run(10, workers, schedule + [a]) == s'
  {
    assert (schedule + [a])[..|schedule|] == schedule;
  }

  /** Two calls on equal trees: both look up their signatures before the first looks at its own again. */
  lemma OverlapWritesTag(hash: string) returns (schedule: seq<Action>)
    ensures Run(10, 2, schedule).looks == [Look(0, 0, 2)]
  {
    hide Run;
    var one, two := Signature(hash, 1), Signature(hash, 2);
    var s0 := State(10, [], map[], [Idle, Idle], [], []);
    var s1 := s0.(workers := [Signing(hash), Idle]);
    var s2 := s0.(workers := [Signing(hash), Signing(hash)]);
    var s3 := State(10, [one], map[hash := 0], [Holding(0), Signing(hash)], [], []);
    var s4 := State(10, [two, one], map[hash := 0], [Holding(0), Holding(1)], [0], []);
    var s5 := s4.(workers := [Idle, Holding(1)], looks := [Look(0, 0, 2)]);
    assert Run(10, 2, []) == s0 by {
      StartsEmpty();
    }
    Then(2, [], Start(0, hash), s0, s1);
    Then(2, [] + [Start(0, hash)], Start(1, hash), s1, s2);
    var a := [] + [Start(0, hash)] + [Start(1, hash)];
    Then(2, a, Go(0, ""), s2, s3);
    Then(2, a + [Go(0, "")], Go(1, ""), s3, s4);
    Then(2, a + [Go(0, "")] + [Go(1, "")], Go(0, ""), s4, s5);
    schedule := a + [Go(0, "")] + [Go(1, "")] + [Go(0, "")];
  }

  lemma StartsEmpty()
    ensures Run(10, 2, []) == State(10, [], map[], [Idle, Idle], [], [])
  {
  }
}
