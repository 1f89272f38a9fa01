/** What every interleaving of the batch writer keeps. */
module BatchLaws {
  import opened BatchModel

  function Handed<T>(done: seq<Done<T>>): seq<T> {
    if done == [] then [] else Handed(done[..|done| - 1]) + done[|done| - 1].batch
  }

  /** The calls that sent a batch again. */
  function Repeats<T>(done: seq<Done<T>>): int {
    if done == [] then 0 else Repeats(done[..|done| - 1]) + done[|done| - 1].attempts - 1
  }

  function Succeeded<T>(done: seq<Done<T>>): nat {
    if done == [] then 0 else Succeeded(done[..|done| - 1]) + if done[|done| - 1].ok then 1 else 0
  }

  /** A flush ends with its first success, or fails after all its retries. */
  predicate Proper<T>(cfg: Config, d: Done<T>) {
    1 <= |d.batch| <= cfg.batchSize && 1 <= d.attempts <= cfg.maxRetries + 1 &&
    (!d.ok ==> d.attempts == cfg.maxRetries + 1)
  }

  /** Attempts of the flush under way that sent its batch again. */
  function RepeatsNow(m: Mode): nat {
    if m.Flushing? && m.attempt > 0 then m.attempt - 1 else 0
  }

  ghost predicate Sound<T>(cfg: Config, s: State<T>) {
    && (forall d <- s.done :: Proper(cfg, d))
    && Handed(s.done) + s.batch + s.queue == s.accepted
    && s.stats.totalSpans == |s.accepted| + s.stats.droppedSpans + s.saving
    && |s.queue| <= cfg.queueCapacity
    && s.stats.flushedBatches == Succeeded(s.done)
    && s.stats.flushedBatches + s.stats.failedBatches == |s.done|
    && s.stats.retriedBatches == Repeats(s.done) + RepeatsNow(s.mode)
    && match s.mode
       case Waiting => |s.batch| < cfg.batchSize
       case Flushing(attempt, _) => 1 <= |s.batch| <= cfg.batchSize && attempt <= cfg.maxRetries
       case Stopped => s.batch == []
  }

  lemma FinishSound<T>(cfg: Config, s: State<T>, stats: Stats, ok: bool)
    requires Usable(cfg) && Sound(cfg, s) && s.mode.Flushing?
    requires stats.totalSpans == s.stats.totalSpans && stats.droppedSpans == s.stats.droppedSpans
    requires stats.retriedBatches == Repeats(s.done) + s.mode.attempt
    requires if ok then
               stats.flushedBatches == s.stats.flushedBatches + 1 && stats.failedBatches == s.stats.failedBatches
             else
               stats.flushedBatches == s.stats.flushedBatches && stats.failedBatches == s.stats.failedBatches + 1 &&
               s.mode.attempt == cfg.maxRetries
    ensures Sound(cfg, Finish(s, stats, ok))
  {
    var t := Finish(s, stats, ok);
    var d := Done(s.batch, s.mode.attempt + 1, ok);
    assert t.done[..|t.done| - 1] == s.done;
    assert Handed(t.done) == Handed(s.done) + s.batch;
    assert Handed(t.done) + [] == Handed(t.done);
  }

  lemma AttemptSound<T>(cfg: Config, s: State<T>, ok: bool)
    requires Usable(cfg) && Sound(cfg, s) && s.mode.Flushing?
    ensures Sound(cfg, Attempt(cfg, s, ok))
  {
    var stats := if s.mode.attempt > 0 then s.stats.(retriedBatches := s.stats.retriedBatches + 1) else s.stats;
    if ok {
      FinishSound(cfg, s, stats.(flushedBatches := stats.flushedBatches + 1), true);
    } else if s.mode.attempt >= cfg.maxRetries {
      FinishSound(cfg, s, stats.(failedBatches := stats.failedBatches + 1), false);
    }
  }

  lemma StepSound<T>(cfg: Config, s: State<T>, e: Step<T>)
    requires Usable(cfg) && Sound(cfg, s) && Enabled(s, e)
    ensures Sound(cfg, Next(cfg, s, e))
  {
    match e
    case Attempted(ok) => AttemptSound(cfg, s, ok);
    case SaveOffered(span) =>
      assert Handed(s.done) + s.batch + (s.queue + [span]) == (Handed(s.done) + s.batch + s.queue) + [span];
    case Received =>
      assert s.queue == [s.queue[0]] + s.queue[1..];
      assert Handed(s.done) + (s.batch + [s.queue[0]]) + s.queue[1..] == Handed(s.done) + s.batch + s.queue;
    case _ =>
  }

  lemma {:induction false} RunSound<T>(cfg: Config, es: seq<Step<T>>)
    requires Usable(cfg)
    ensures Sound(cfg, Run(cfg, es))
  {
    hide Sound;
    if es == [] {
      FreshSound<T>(cfg);
    } else {
      var front, e := es[..|es| - 1], es[|es| - 1];
      RunSound(cfg, front);
      if Enabled(Run(cfg, front), e) {
        StepSound(cfg, Run(cfg, front), e);
      }
    }
  }

  lemma FreshSound<T>(cfg: Config)
    requires Usable(cfg)
    ensures Sound(cfg, Fresh<T>())
  {
  }

  /** Nothing accepted is lost, repeated or reordered on its way to a flush. */
  lemma {:induction false} OrderKept<T>(cfg: Config, es: seq<Step<T>>)
    requires Usable(cfg)
    ensures var s := Run(cfg, es); Handed(s.done) + s.batch + s.queue == s.accepted
  {
    hide Run;
    RunSound(cfg, es);
  }

  /** Every call to save is accounted for. */
  lemma {:induction false} SavesExplained<T>(cfg: Config, es: seq<Step<T>>)
    requires Usable(cfg)
    ensures var s := Run(cfg, es); s.stats.totalSpans == |s.accepted| + s.stats.droppedSpans + s.saving
  {
    hide Run;
    RunSound(cfg, es);
  }

  /** Batches are never empty and never too large, and a flush that fails has used all its retries. */
  lemma {:induction false} BatchesProper<T>(cfg: Config, es: seq<Step<T>>, i: nat)
    requires Usable(cfg) && i < |Run(cfg, es).done|
    ensures var d := Run(cfg, es).done[i];
            && 1 <= |d.batch| <= cfg.batchSize
            && 1 <= d.attempts <= cfg.maxRetries + 1 && (!d.ok ==> d.attempts == cfg.maxRetries + 1)
  {
    hide Run;
    RunSound(cfg, es);
    assert Run(cfg, es).done[i] in Run(cfg, es).done;
  }

  lemma OneMore(m: nat, k: nat)
    ensures m * (k + 1) == m * k + m
  {
  }

  lemma {:induction false} RepeatsBounds<T>(cfg: Config, done: seq<Done<T>>)
    requires forall d <- done :: Proper(cfg, d)
    ensures Succeeded(done) <= |done|
    ensures cfg.maxRetries * (|done| - Succeeded(done)) <= Repeats(done) <= cfg.maxRetries * |done|
  {
    if done != [] {
      var n := |done| - 1;
      var front := done[..n];
      RepeatsBounds(cfg, front);
      assert Proper(cfg, done[n]);
      OneMore(cfg.maxRetries, n);
      OneMore(cfg.maxRetries, n - Succeeded(front));
    }
  }

  /** What the counters of batches say about each other while no flush is under way. */
  lemma {:induction false} CountersExplained<T>(cfg: Config, es: seq<Step<T>>)
    requires Usable(cfg)
    ensures var s := Run(cfg, es); var st := s.stats;
            && st.flushedBatches == Succeeded(s.done) && st.flushedBatches + st.failedBatches == |s.done|
            && cfg.maxRetries * st.failedBatches <= st.retriedBatches
            && (!s.mode.Flushing? ==> st.retriedBatches <= cfg.maxRetries * (st.failedBatches + st.flushedBatches))
            && st.retriedBatches <= cfg.maxRetries * (st.failedBatches + st.flushedBatches + 1)
  {
    hide Run;
    RunSound(cfg, es);
    var s := Run(cfg, es);
    RepeatsBounds(cfg, s.done);
    OneMore(cfg.maxRetries, |s.done|);
  }

  /** Once the writer has stopped, no further span is ever flushed: what the queue holds then stays there. */
  lemma {:induction false} NothingAfterStop<T>(cfg: Config, es: seq<Step<T>>, more: seq<Step<T>>)
    requires Usable(cfg) && Run(cfg, es).mode.Stopped?
    ensures var s, t := Run(cfg, es), Run(cfg, es + more);
            t.mode.Stopped? && t.done == s.done && s.queue <= t.queue && t.accepted == Handed(s.done) + t.queue
  {
    if more == [] {
      assert es + more == es;
      OrderKept(cfg, es);
      RunSound(cfg, es);
      var s := Run(cfg, es);
      assert Handed(s.done) + s.batch == Handed(s.done);
    } else {
      var front, e := more[..|more| - 1], more[|more| - 1];
      NothingAfterStop(cfg, es, front);
      assert es + more == (es + front) + [e];
      assert (es + more)[..|es + more| - 1] == es + front;
      if e.SaveOffered? {
        var t := Run(cfg, es + front);
        assert Handed(t.done) + (t.queue + [e.span]) == (Handed(t.done) + t.queue) + [e.span];
      }
    }
  }

  /** After the stop, everything that was accepted has been handed to a flush, or ever will be, exactly if the
      queue is empty. */
  lemma {:induction false} AllHandedIff<T>(cfg: Config, es: seq<Step<T>>, more: seq<Step<T>>)
    requires Usable(cfg) && Run(cfg, es).mode.Stopped?
    ensures var t := Run(cfg, es + more); Handed(t.done) == t.accepted <==> t.queue == []
  {
    hide Run;
    NothingAfterStop(cfg, es, more);
    var t := Run(cfg, es + more);
    assert |t.accepted| == |Handed(t.done)| + |t.queue|;
  }

  /** One span is saved, and the writer sees the stop before the span. */
  lemma {:induction false} StopCanLeaveSpan<T>(cfg: Config, span: T) returns (es: seq<Step<T>>)
    requires Usable(cfg)
    ensures var s := Run(cfg, es); s.mode.Stopped? && s.queue == [span] == s.accepted && s.done == []
  {
    es := [SaveCounted, SaveOffered(span), StopSeen];
    assert es[..2] == [SaveCounted, SaveOffered(span)] && es[..2][..1] == [SaveCounted] && es[..2][..1][..0] == [];
    assert Run(cfg, es[..2][..1]) == Fresh<T>().(stats := Stats(1, 0, 0, 0, 0), saving := 1);
    assert Run(cfg, es[..2]).queue == [span];
  }

  // ---------- what each step decides ----------

  lemma RunNext<T>(cfg: Config, es: seq<Step<T>>, e: Step<T>)
    ensures var s := Run(cfg, es); Run(cfg, es + [e]) == if Enabled(s, e) then Next(cfg, s, e) else s
  {
    assert (es + [e])[..|es|] == es;
  }

  /** A call that is under way adds its span to the queue, unless the queue is full; then the span is dropped. */
  lemma {:induction false} DroppedIffFull<T>(cfg: Config, es: seq<Step<T>>, span: T)
    requires Usable(cfg) && Run(cfg, es).saving > 0
    ensures var s, t := Run(cfg, es), Run(cfg, es + [SaveOffered(span)]);
            if |s.queue| == cfg.queueCapacity then t.queue == s.queue && t.stats.droppedSpans == s.stats.droppedSpans + 1
            else t.queue == s.queue + [span] && t.stats.droppedSpans == s.stats.droppedSpans
  {
    hide Run;
    RunSound(cfg, es);
    RunNext(cfg, es, SaveOffered(span));
  }

  /** A flush begins with the span that makes the batch full, or with a tick or the stop if there is any span in the
      batch. */
  lemma {:induction false} FlushBeginsIff<T>(cfg: Config, es: seq<Step<T>>, e: Step<T>)
    requires Usable(cfg) && Run(cfg, es).mode.Waiting?
    ensures var s, t := Run(cfg, es), Run(cfg, es + [e]);
            t.mode.Flushing? <==>
            || (e.Received? && s.queue != [] && |s.batch| + 1 == cfg.batchSize)
            || ((e.Ticked? || e.StopSeen?) && s.batch != [])
  {
    hide Run;
    RunSound(cfg, es);
    RunNext(cfg, es, e);
  }

  // ---------- a flush without interruption ----------

  /** A flush at once is a run of its attempts. */
  lemma {:induction false} FlushAllIsRun<T>(cfg: Config, es: seq<Step<T>>, outcome: nat -> bool) returns (more: seq<Step<T>>)
    requires Usable(cfg)
    requires var s := Run(cfg, es); s.mode.Flushing? ==> s.mode.attempt <= cfg.maxRetries
    ensures Run(cfg, es + more) == FlushAll(cfg, Run(cfg, es), outcome) && !Run(cfg, es + more).mode.Flushing?
    decreases var m := Run(cfg, es).mode; if m.Flushing? then cfg.maxRetries + 1 - m.attempt else 0
  {
    var s := Run(cfg, es);
    if s.mode.Flushing? {
      var e := Attempted(outcome(s.mode.attempt));
      assert (es + [e])[..|es|] == es;
      var rest := FlushAllIsRun(cfg, es + [e], outcome);
      more := [e] + rest;
      assert es + more == es + [e] + rest;
    } else {
      more := [];
      assert es + more == es;
    }
  }

  /** The flush from a given attempt on: it ends with the first success, at attempt n, or after the last retry. */
  lemma {:induction false} FlushAllIs<T>(cfg: Config, s: State<T>, outcome: nat -> bool, n: nat)
    requires s.mode.Flushing? && s.mode.attempt <= n <= cfg.maxRetries
    requires forall i: nat :: s.mode.attempt <= i < n ==> !outcome(i)
    requires outcome(n) || n == cfg.maxRetries
    ensures var again := n - s.mode.attempt + if s.mode.attempt > 0 then 1 else 0;
            var stats := s.stats.(retriedBatches := s.stats.retriedBatches + again);
            FlushAll(cfg, s, outcome) ==
            Finish(s.(mode := s.mode.(attempt := n)),
                   if outcome(n) then stats.(flushedBatches := stats.flushedBatches + 1)
                   else stats.(failedBatches := stats.failedBatches + 1),
                   outcome(n))
    decreases n - s.mode.attempt
  {
    if s.mode.attempt < n {
      FlushAllIs(cfg, Attempt(cfg, s, outcome(s.mode.attempt)), outcome, n);
    }
  }
}
