/** The batch writer as small steps: any number of callers save spans while one writer fills a batch and
    flushes it, an attempt at a time. Everything between two steps can be interleaved.

    Spans are pointers of any type T. Two histories are kept for the laws: the accepted spans in the
    order in which they entered the queue, and the batches whose flush has come to an end. */
module BatchModel {

  datatype Config = Config(queueCapacity: nat, batchSize: nat, maxRetries: nat)

  /** What the constructor makes of the configured values. */
  predicate Usable(cfg: Config) {
    cfg.queueCapacity > 0 && cfg.batchSize > 0 && cfg.maxRetries > 0
  }

  datatype Stats = Stats(totalSpans: nat, flushedBatches: nat, failedBatches: nat, retriedBatches: nat, droppedSpans: nat)

  /** attempts counts the calls that sent the batch; the last one succeeded or all failed. */
  datatype Done<T> = Done(batch: seq<T>, attempts: nat, ok: bool)

  /** What the writer does: wait for a span, a tick or the stop, or flush, for the last time or not. */
  datatype Mode = Waiting | Flushing(attempt: nat, last: bool) | Stopped

  datatype State<T> = State(queue: seq<T>, batch: seq<T>, mode: Mode, stats: Stats, saving: nat,
                            accepted: seq<T>, done: seq<Done<T>>)

  function Fresh<T>(): State<T> {
    State([], [], Waiting, Stats(0, 0, 0, 0, 0), 0, [], [])
  }

  datatype Step<T> =
    | SaveCounted
    | SaveOffered(span: T)
    | Received
    | Ticked
    | StopSeen
    | Attempted(ok: bool)

  predicate Enabled<T>(s: State<T>, e: Step<T>) {
    match e
    case SaveCounted => true
    case SaveOffered(_) => s.saving > 0
    case Received => s.mode.Waiting? && s.queue != []
    case Ticked => s.mode.Waiting?
    case StopSeen => s.mode.Waiting?
    case Attempted(_) => s.mode.Flushing?
  }

  function CountSave<T>(s: State<T>): State<T> {
    s.(stats := s.stats.(totalSpans := s.stats.totalSpans + 1), saving := s.saving + 1)
  }

  function Offer<T>(cfg: Config, s: State<T>, span: T): State<T>
    requires s.saving > 0
  {
    var s1 := s.(saving := s.saving - 1);
    if |s.queue| < cfg.queueCapacity then s1.(queue := s.queue + [span], accepted := s.accepted + [span])
    else s1.(stats := s.stats.(droppedSpans := s.stats.droppedSpans + 1))
  }

  /** An empty batch is not flushed. */
  function Flush<T>(s: State<T>, last: bool): State<T> {
    if s.batch != [] then s.(mode := Flushing(0, last)) else if last then s.(mode := Stopped) else s
  }

  function Receive<T>(cfg: Config, s: State<T>): State<T>
    requires s.queue != []
  {
    var s1 := s.(batch := s.batch + [s.queue[0]], queue := s.queue[1..]);
    if |s1.batch| >= cfg.batchSize then Flush(s1, false) else s1
  }

  /** The flush is over and the batch is used up. */
  function Finish<T>(s: State<T>, stats: Stats, ok: bool): State<T>
    requires s.mode.Flushing?
  {
    s.(stats := stats, batch := [], mode := if s.mode.last then Stopped else Waiting,
       done := s.done + [Done(s.batch, s.mode.attempt + 1, ok)])
  }

  function Attempt<T>(cfg: Config, s: State<T>, ok: bool): State<T>
    requires s.mode.Flushing?
  {
    var stats := if s.mode.attempt > 0 then s.stats.(retriedBatches := s.stats.retriedBatches + 1) else s.stats;
    if ok then Finish(s, stats.(flushedBatches := stats.flushedBatches + 1), true)
    else if s.mode.attempt >= cfg.maxRetries then Finish(s, stats.(failedBatches := stats.failedBatches + 1), false)
    else s.(stats := stats, mode := s.mode.(attempt := s.mode.attempt + 1))
  }

  function Next<T>(cfg: Config, s: State<T>, e: Step<T>): State<T>
    requires Enabled(s, e)
  {
    match e
    case SaveCounted => CountSave(s)
    case SaveOffered(span) => Offer(cfg, s, span)
    case Received => Receive(cfg, s)
    case Ticked => Flush(s, false)
    case StopSeen => Flush(s, true)
    case Attempted(ok) => Attempt(cfg, s, ok)
  }

  /** Steps that are not enabled do not happen. */
  function Run<T>(cfg: Config, es: seq<Step<T>>): State<T> {
    if es == [] then Fresh()
    else
      var s := Run(cfg, es[..|es| - 1]);
      if Enabled(s, es[|es| - 1]) then Next(cfg, s, es[|es| - 1]) else s
  }

  /** All remaining attempts of a flush at once; attempt n succeeds as outcome says. */
  function FlushAll<T>(cfg: Config, s: State<T>, outcome: nat -> bool): State<T>
    requires s.mode.Flushing? ==> s.mode.attempt <= cfg.maxRetries
    decreases if s.mode.Flushing? then cfg.maxRetries + 1 - s.mode.attempt else 0
  {
    if s.mode.Flushing? then FlushAll(cfg, Attempt(cfg, s, outcome(s.mode.attempt)), outcome) else s
  }
}
