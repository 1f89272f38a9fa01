/** The store's writing side as the program has it: a bounded queue, one buffer that every batch reuses, and
    counters. The writer's loop is one method a case. The calls that send a batch can fail in any way: attempt
    n of a flush succeeds when outcome(n) says so. */
module BatchWriter {
  import opened BatchModel
  import opened BatchLaws

  class ClickHouseStore<T(0)> {
    const cfg: Config
    var writeQueue: seq<T>
    var buffer: array<T>
    var filled: nat
    var stopped: bool
    var totalSpans: nat
    var flushedBatches: nat
    var failedBatches: nat
    var retriedBatches: nat
    var droppedSpans: nat
    ghost var accepted: seq<T>
    ghost var done: seq<Done<T>>

    ghost predicate Valid()
      reads this
    {
      && Usable(cfg) && buffer.Length == cfg.batchSize && filled < cfg.batchSize
      && |writeQueue| <= cfg.queueCapacity && (stopped ==> filled == 0)
    }

    ghost function Counters(): Stats
      reads this
    {
      Stats(totalSpans, flushedBatches, failedBatches, retriedBatches, droppedSpans)
    }

    ghost function Model(): State<T>
      reads this, buffer
      requires filled <= buffer.Length
    {
      State(writeQueue, buffer[..filled], if stopped then Stopped else Waiting, Counters(), 0, accepted, done)
    }

    /** Values that are not positive stand for the defaults. */
    constructor (queueCapacity: int, batchSize: int, maxRetries: int)
      ensures Valid() && Model() == Fresh() && fresh(buffer)
      ensures cfg == Config(if queueCapacity > 0 then queueCapacity else 100_000,
                            if batchSize > 0 then batchSize else 10_000,
                            if maxRetries > 0 then maxRetries else 3)
    {
      var size := if batchSize > 0 then batchSize else 10_000;
      cfg := Config(if queueCapacity > 0 then queueCapacity else 100_000, size, if maxRetries > 0 then maxRetries else 3);
      writeQueue, accepted, done := [], [], [];
      buffer := new T[size];
      filled, stopped := 0, false;
      totalSpans, flushedBatches, failedBatches, retriedBatches, droppedSpans := 0, 0, 0, 0, 0;
    }

    method SaveSpan(span: T) returns (ok: bool)
      requires Valid()
      modifies this`totalSpans, this`writeQueue, this`droppedSpans, this`accepted
      ensures Valid() && Model() == Offer(cfg, CountSave(old(Model())), span)
      ensures ok <==> |old(writeQueue)| < cfg.queueCapacity
    {
      totalSpans := totalSpans + 1;
      if |writeQueue| < cfg.queueCapacity {
        writeQueue := writeQueue + [span];
        accepted := accepted + [span];
        return true;
      }
      droppedSpans := droppedSpans + 1;
      return false;
    }

    /** Returns the number of the attempt that was the last one. */
    method FlushWithRetry(outcome: nat -> bool) returns (ok: bool, ghost attempt: nat)
      modifies this`retriedBatches
      ensures attempt <= cfg.maxRetries && retriedBatches == old(retriedBatches) + attempt
      ensures (forall i: nat :: i < attempt ==> !outcome(i)) && ok == outcome(attempt)
      ensures !ok ==> attempt == cfg.maxRetries
    {
      var n := 0;
      while n <= cfg.maxRetries
        invariant n <= cfg.maxRetries + 1
        invariant retriedBatches == old(retriedBatches) + if n == 0 then 0 else n - 1
        invariant forall i: nat :: i < n ==> !outcome(i)
      {
        if n > 0 {
          retriedBatches := retriedBatches + 1;
        }
        var sent := outcome(n);
        if sent {
          return true, n;
        }
        n := n + 1;
      }
      return false, cfg.maxRetries;
    }

    /** Flushes what is in the buffer, if anything, and starts the buffer again. */
    method FlushBatch(outcome: nat -> bool, ghost last: bool)
      requires Usable(cfg) && filled <= buffer.Length && !stopped
      modifies this`filled, this`flushedBatches, this`failedBatches, this`retriedBatches, this`done
      ensures filled == 0
      ensures var s := FlushAll(cfg, Flush(old(Model()), last), outcome);
              Model() == if last then s.(mode := Waiting) else s
      ensures var s := FlushAll(cfg, Flush(old(Model()), last), outcome);
              s.mode == if last then Stopped else Waiting
    {
      if filled == 0 {
        assert buffer[..0] == [];
        return;
      }
      ghost var s := Flush(Model(), last);
      ghost var batch := buffer[..filled];
      var ok, attempt := FlushWithRetry(outcome);
      FlushAllIs(cfg, s, outcome, attempt);
      if ok {
        flushedBatches := flushedBatches + 1;
      } else {
        failedBatches := failedBatches + 1;
      }
      done := done + [Done(batch, attempt + 1, ok)];
      filled := 0;
      assert buffer[..0] == [];
    }

    /** A span arrives from the queue. */
    method OnSpan(outcome: nat -> bool)
      requires Valid() && !stopped && writeQueue != []
      modifies this, buffer
      ensures Valid() && buffer == old(buffer)
      ensures Model() == FlushAll(cfg, Receive(cfg, old(Model())), outcome)
    {
      ghost var before := Model();
      var span := writeQueue[0];
      writeQueue := writeQueue[1..];
      buffer[filled] := span;
      filled := filled + 1;
      assert buffer[..filled] == before.batch + [span];
      if filled >= cfg.batchSize {
        FlushBatch(outcome, false);
      }
    }

    method OnTick(outcome: nat -> bool)
      requires Valid() && !stopped
      modifies this
      ensures Valid() && buffer == old(buffer)
      ensures Model() == FlushAll(cfg, Flush(old(Model()), false), outcome)
    {
      if filled > 0 {
        FlushBatch(outcome, false);
      }
    }

    /** The writer flushes its batch and returns; the queue is left as it is. */
    method OnStop(outcome: nat -> bool)
      requires Valid() && !stopped
      modifies this
      ensures Valid() && buffer == old(buffer)
      ensures Model() == FlushAll(cfg, Flush(old(Model()), true), outcome)
    {
      FlushBatch(outcome, true);
      stopped := true;
    }
  }
}
