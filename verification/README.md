# A verified model of the tracing pipeline

This project models the logic of an eBPF-based application performance monitor and proves properties of it:
the correlator that pairs requests with responses, the Redis and Envoy wire parsers, the latency anomaly
detector, the pipeline that turns a list of spans into a tree, compresses it and draws it as a flame graph, and
the writer that stores spans in batches. `dafny verify dfyconfig.toml` checks everything.

Where the program changes state step by step, so does the model: classes with the program's fields and loops
(`SpanCorrelator`, `Redis`, `Envoy`, `AnomalyDetector`, `TraceTree`, `Compressor`, `FlameGraph`, `FlameFolded`,
`FlameStats`, `BatchWriter`). Each method is proved to do what a function of the old state says (`CorrelatorModel`,
`RedisModel`, ...), and the laws are proved about those functions, over every run and every input.

What is modelled, area by area:

* **Correlator.** Twice. `CorrelatorModel` handles an event at a time; `CorrelatorAccounting` and `CorrelatorEmission`
  account for every span, every emission and all five counters over whole runs of events and cleanup ticks.
  `CorrelatorReference` tells from the inputs alone what each connection is and what happens to its requests, and
  `CorrelatorTimes`, `CorrelatorIdle` and `CorrelatorSpans` who is matched with whom, what a tick forgets and what is
  written into every span. `CorrelatorWorkers` interleaves the critical sections of any number of workers, with
  counters that wrap at 2^64, and `CorrelatorCloses` says what closing a connection does to the gauge of requests in
  flight when others still use it. `ConnectionKey` is the key under which both directions of a connection meet.
* **Wire parsers.** `RedisRoundTrip` and `EnvoyModel` print frames and prove that the parsers invert the printers,
  with arbitrary bytes in the frames and behind them.
* **Anomaly detector.** Over the reals: `AnomalyLaws` says what the moving statistics are and exactly when a duration
  is alerted on; `AnomalyRuns`, `AlertContents` and `CooldownRuns` say it, what the alerts contain and how far apart
  they are, for runs in which the spans of all operations and the cleanups are interleaved.
* **Span trees.** `TraceTreeModel` and `TraceTree` build the tree, `SubtreeStructure` and `SubtreeMeasures` print and
  measure it, `CompressionModel`, `CompressionLaws`, `StoredSpans` and `Compressor` compress it, and the `Flame...`
  modules lay it out, fold it and sum it up. The cache of signatures is in `SignatureCache`; `SharedSignatures`
  interleaves calls that share its objects. `Permutations` and `SpanTree` deal with the sort of child lists, which may
  be any sort that orders by start time and need not be stable.
* **Batch writer.** `BatchModel` and `BatchLaws` interleave the callers of SaveSpan with the attempts of a flush;
  `BatchWriter` is the store's writing side with its reused buffer.

Some results contradict what one would expect of the program, or what its names and comments say. The code was
followed in each case:

* The gauge InflightRequests is not the number of queued requests: evictions and overwritten connections are never
  subtracted (`CorrelatorEmission.GaugeDrift`, `GaugeOvercountsAfterEviction`). Nor does it stay below 2^64 - 1: it
  can read that between two critical sections (`CorrelatorWorkers.GaugeCanUnderflowInPassing`), and it can stay there
  with all workers idle and every queue empty, when a connection is closed while a receiver holds its flow
  (`GaugeUnderflowsForGood`). At rest it counts the requests queued in or evicted from the flows that were not closed,
  plus the earlier evictions of the closed ones, plus what was pushed to these after their close, less what was taken
  from them then (`CorrelatorCloses.GaugeByEvents`). It is wrapped exactly if these takes exceed the rest
  (`GaugeWrapsIff`). As long as no close meets a worker that is about to use the flow, it counts the queued and the
  evicted requests, and is never wrapped (`GaugeRightIfMeetsNobody`).
* A connection that was opened and has not been used yet is dropped by the next cleanup tick, whatever the timeout:
  only sends and receives keep it (`CorrelatorIdle.TickKeepsIff`).
* With the default configuration of the anomaly detector no alert is ever raised (`AnomalyRuns.DefaultsNeverAlert`).
  The configured cooldown is kept exactly if it is at most ten minutes, or no alert can be raised at all
  (`CooldownRuns.CooldownKeptIff`, `SpikesTooClose`).
* An empty bulk reply hides every Redis reply behind it (`RedisRoundTrip.EmptyBulkHidesTheRest`).
* The structure string need not identify a tree when a label contains `[`, a newline or a second colon
  (`SubtreeStructure.BracketNotInjective`, `NewlineNotInjective`, `ColonNotInjective`). Among trees without `[` and
  newlines in their labels, all that have a tree's text have its shape exactly if no service and no operation in it
  contains a colon (`OnlyShapeIff`).
* The tag subtree_duplicate_count does not tell duplicates: however many equal subtrees were seen, a call that runs
  alone writes it nowhere (`CompressionLaws.DuplicatesNotTaggedAlone`, `SharedSignatures.OneWorkerNeverTags`). It is
  written exactly if another call looks up the same signature object between a call's own lookup and its look at the
  count (`SharedSignatures.TagWrittenIff`, `OverlapWritesTag`).
* Compression panics exactly if some span of the trace has nil tags and is large and compressible enough
  (`CompressionLaws.PanicsIff`).
* Frames whose children together take longer than they do, as concurrent calls can, reach beyond their parents: all
  drawn children lie on their parents exactly if, for each drawn frame, the values up to and including its last drawn
  child add up to no more than its value (`FlameOverhang.NoOverhangIff`). Rectangles of one row can overlap then
  (`ConcurrentCallsOverlap`), exactly if the sums of values that they stand for do (`InRowsIff`).
* After a stop, spans that are still queued are never written (`BatchLaws.NothingAfterStop`), and there can be some
  (`StopCanLeaveSpan`).

## Model

| member | source | states |
|---|---|---|
| CorrelatorWorkers.EveryFlowIsFifo | pkg/trace/correlator.go:173-198 | under every schedule of any number of workers, in every flow object that ever existed, the numbers of the requests that left (matched or evicted, in order) followed by the queue are exactly the numbers handed out, and the queue never exceeds maxInflight (or one, if that is less) |
| CorrelatorWorkers.NoRequestLeavesTwice | pkg/trace/correlator.go:211-253 | before 2^64 sends on a flow, the i-th request to leave it is number i + 1: none is matched twice and none is skipped |
| CorrelatorWorkers.OrphanSawEmptyQueue | pkg/trace/correlator.go:211-253 | a response is an orphan only if an earlier step of its own worker, one of the two peeks, found the flow's queue empty, and nothing was done for it in between |
| CorrelatorWorkers.StepFifo | pkg/trace/correlator.go:173-198 | one critical section of one worker keeps the order of every flow |
| CorrelatorWorkers.ComplementSubtracts | pkg/trace/correlator.go:274-275 | adding the complement of n - 1 to an unsigned 64-bit counter subtracts n, also for n = 0 |
| CorrelatorWorkers.GaugeLaw | pkg/trace/correlator.go:200-274 | under every schedule InflightRequests is, modulo 2^64, the requests queued in all flow objects plus the evictions, less what closing subtracted, less pushes and plus matches not yet counted |
| CorrelatorWorkers.GaugeAtRest | pkg/trace/correlator.go:200-274 | when no worker is between a critical section and its atomic addition, those last two terms are zero, so that the gauge is the requests in all flow objects plus the evictions, less what closing subtracted, modulo 2^64 |
| CorrelatorCloses.GaugeByEvents | pkg/trace/correlator.go:200-277 | under every schedule, when no addition is outstanding, the gauge is, modulo 2^64: the requests queued in and evicted from the flows that no close took out of the map, plus the evictions of the closed flows before their close, plus the requests pushed to these later, less those taken from them later |
| CorrelatorCloses.GaugeWrapsIff | pkg/trace/correlator.go:217-277 | in fewer than 2^64 steps the gauge is that number itself, unless the requests taken from closed flows exceed the other terms; exactly then it reads 2^64 too much |
| CorrelatorCloses.GaugeRightIfMeetsNobody | pkg/trace/correlator.go:257-277 | in every schedule in which no close takes a flow that a worker is about to push to, to peek at or to take from, the gauge at rest is exactly the requests queued in the flows that were not closed, plus all evictions |
| CorrelatorCloses.StepApart | pkg/trace/correlator.go:257-282 | after such a close no worker ever comes to use a closed flow |
| CorrelatorWorkers.GaugeWithoutClose | pkg/trace/correlator.go:200-234 | in a schedule without a close the gauge at rest counts the queued and evicted requests of all flow objects, modulo 2^64 |
| CorrelatorWorkers.GaugeCanUnderflowInPassing | pkg/trace/correlator.go:198-234 | a schedule in which the gauge reads 2^64 - 1 while no request is in flight, because a response is counted out before its request is counted in |
| CorrelatorWorkers.GaugeUnderflowsForGood | pkg/trace/correlator.go:217-277 | a schedule in which a connection is closed while a receiver holds its flow, and which ends with all workers idle, no connection, every queue empty and the gauge at 2^64 - 1 |
| CorrelatorAccounting.CountersExplained | pkg/trace/correlator.go:83-420 | in every run of events and cleanup ticks all five counters have the values that the history of matches, evictions, closings, timeouts and overwrites gives them |
| CorrelatorEmission.ProcessedSpansExplained | pkg/trace/correlator.go:83-121 | with the handler set, ProcessedSpans counts the handler calls, which are: events not pending, two for each match in handleRecv, and one for each late match, eviction, request in flight at a close and request in flight at a timeout |
| CorrelatorEmission.EmittedOnceTwiceOrWaiting | pkg/trace/correlator.go:104-120 | every event's span is in exactly one pending entry and was never emitted, or was emitted once, or twice; twice exactly if it left a live queue as a request or was matched as a response in handleRecv |
| CorrelatorEmission.RunSound | pkg/trace/correlator.go:83-420 | in every run each span has at most one place (queued, gone, matched response, pending), pending spans have no trace id, settled ones have one, and matches stay linked |
| CorrelatorEmission.GaugeDrift | pkg/trace/correlator.go:123-161 | InflightRequests = requests in live queues + evictions + requests in overwritten flows, ActiveConnections = connections + overwrites, DroppedEvents = evictions; neither gauge goes below zero; the first is exact if and only if nothing was evicted and no overwritten flow held a request, the second if and only if nothing was overwritten |
| CorrelatorEmission.GaugeOvercountsAfterEviction | pkg/trace/correlator.go:174-200 | a run in which the gauge reads 2 and one request is queued |
| CorrelatorEmission.MatchedResponsesAreChildren | pkg/trace/correlator.go:223-232 | at any later time a matched response has its request's span id as parent, its non-empty trace id and its duration, and after a match in handleRecv the number that the request has as response_seq |
| CorrelatorEmission.NoRequestMatchedTwice | pkg/trace/correlator.go:310-349 | no span is the request of two matches or the response of two, not even of a late one after one in handleRecv |
| CorrelatorReference.RunFollows | pkg/trace/correlator.go:83-420 | in every run the map holds under each key exactly the connection that the inputs under this key and the ticks give it, with its queue, its times and its request numbers; and the matches, evictions, closings, timeouts and overwrites are the ones that follow from these, in that order |
| CorrelatorTimes.MatchesTakeTheirTime | pkg/trace/correlator.go:223-232 | a match is between a request and a later receive under the same key, a response if it is in handleRecv, and both spans end up with the time between the two events as duration |
| CorrelatorTimes.AnsweredInOrder | pkg/trace/correlator.go:211-253 | requests under one key are answered in the order in which they came |
| CorrelatorTimes.RequestPayloadIff | pkg/trace/correlator.go:454-465 | the first bytes that make a payload a request |
| CorrelatorTimes.ResponsePayloadIff | pkg/trace/correlator.go:467-475 | the first bytes that make a payload a response |
| CorrelatorTimes.RequestOrResponse | pkg/trace/correlator.go:454-475 | no payload is both |
| CorrelatorIdle.TickKeepsIff | pkg/trace/correlator.go:398-419 | a tick that visits a key leaves it connected if and only if it was, and the last send or the last receive since it was opened is no longer ago than the timeout; keys it does not visit stay as they are |
| CorrelatorIdle.TickKeepsForward | pkg/trace/correlator.go:398-419 | with a clock that does not go back: if and only if some send or receive since the key was opened is no longer ago than the timeout |
| CorrelatorIdle.TickWaitsIff | pkg/trace/correlator.go:378-396 | after a tick a span is pending if and only if it was before, and its event came no longer ago than the timeout |
| CorrelatorSpans.SpansAre | pkg/trace/correlator.go:83-420 | in every run, for every span: its trace id, span id and parent, its duration unless it was matched, and exactly which tags it has, with the values of all but the two that hold numbers |
| CorrelatorSpans.RequestsNumbered | pkg/trace/correlator.go:190-232 | a request is tagged with its number on its connection since that was opened, and with it again as response_seq when it is answered in handleRecv |
| SpanCorrelator.Correlator.ProcessEvent | pkg/trace/correlator.go:83-121 | one event takes the correlator's objects to the state that CorrelatorModel.ProcessEvent computes |
| SpanCorrelator.Correlator.Dispatch | pkg/trace/correlator.go:91-102 | the handler of the event's type runs |
| SpanCorrelator.Correlator.Open | pkg/trace/correlator.go:123-161 | connect and accept install a new flow under the key and count it, whatever was there |
| SpanCorrelator.Correlator.GetOrCreateFlow | pkg/trace/correlator.go:284-308 | the flow under the key, a new one only if there was none |
| SpanCorrelator.Correlator.HandleSend | pkg/trace/correlator.go:163-204 | a request payload is named, evicts the oldest request if the queue is full, and is queued with the next number |
| SpanCorrelator.Correlator.EvictIfFull | pkg/trace/correlator.go:174-188 | at maxInflight the front request is dropped, counted and emitted |
| SpanCorrelator.Correlator.Enqueue | pkg/trace/correlator.go:190-202 | the request joins the end of the queue with the next number, is counted and tagged |
| SpanCorrelator.Correlator.HandleRecv | pkg/trace/correlator.go:206-255 | a response payload takes the front request or becomes an orphan |
| SpanCorrelator.Correlator.AnswerRequest | pkg/trace/correlator.go:223-232 | what a match writes into the request's span and the response's span |
| SpanCorrelator.Correlator.Conclude | pkg/trace/correlator.go:104-120 | a span with a trace id is emitted, one without waits and may be matched late |
| SpanCorrelator.Correlator.EmitAll | pkg/trace/correlator.go:262-272 | requests are tagged and emitted in the order of the queue; a close tags only what it emits, a timeout tags all |
| SpanCorrelator.Correlator.HandleClose | pkg/trace/correlator.go:257-282 | the requests in flight are tagged and emitted in order, and the flow and its requests leave map and gauges |
| SpanCorrelator.Correlator.TryCorrelate | pkg/trace/correlator.go:310-349 | a receive without trace id takes the front request, and both spans leave the pending list |
| SpanCorrelator.Correlator.RemoveFromPending | pkg/trace/correlator.go:351-364 | the first pending entry of the span is removed, and no other |
| SpanCorrelator.Correlator.ExpirePending | pkg/trace/correlator.go:378-396 | the scan names, tags, emits and removes every entry older than the timeout |
| SpanCorrelator.Correlator.ExpireFlows | pkg/trace/correlator.go:398-419 | exactly the connections idle in both directions are dropped with their requests, in some order |
| SpanCorrelator.Correlator.CleanupExpired | pkg/trace/correlator.go:375-420 | one cleanup tick, for some order in which the map is visited |
| ConnectionKey.SameFlowIff | pkg/trace/correlator.go:446-452 | two events have the same key if and only if they have the same pid and the same unordered pair of raw (address, port) endpoints |
| ConnectionKey.KeyIff | pkg/trace/correlator.go:446-452 | the swap by string order forgets the direction of the pair and nothing else |
| ConnectionKey.BothDirectionsShareFlow | bpf/network_trace.bpf.c:352-397 | the swapped endpoints that the probes report for the two directions of one connection give the same key |
| ConnectionKey.IntToIPInjective | pkg/model/trace.go:151-158 | different addresses have different dotted texts |
| ConnectionKey.NtohsInjective | pkg/model/trace.go:160-162 | swapping the bytes of a port loses nothing |
| ConnectionKey.IPSays | pkg/model/trace.go:151-158 | the text of an address has its four bytes in decimal, the lowest first |
| ConnectionKey.NtohsSwaps | pkg/model/trace.go:160-162 | the two bytes of a port change places |
| Decimal.ItoaInjective | pkg/trace/correlator.go:451 | different numbers have different decimal texts |
| Bytes.AtoiReadsDecimal | pkg/protocol/parser.go:420-439 | reading the decimal text of a number gives the number |
| Redis.RedisParser.ParseMultiple | pkg/protocol/parser.go:372-391 | the cursor loop returns the commands up to the first position where nothing can be read, or an error if that is the first |
| Redis.RedisParser.ParseSingle | pkg/protocol/parser.go:393-409 | one command by its first byte, and where it ends |
| Redis.RedisParser.ParseRESPArray | pkg/protocol/parser.go:411-465 | an array header and at most that many bulk strings |
| Redis.RedisParser.ParseBulkStrings | pkg/protocol/parser.go:429-452 | the loop over the elements, with the cursor where it gives up |
| Redis.RedisParser.ParseRESPResponse | pkg/protocol/parser.go:467-494 | a reply line, and its bulk string if there is a non-empty one |
| Redis.RedisParser.ParseInlineCommand | pkg/protocol/parser.go:496-525 | an inline command up to the line feed |
| RedisModel.SingleAdvances | pkg/protocol/parser.go:376-388 | every parsed command moves the cursor forward |
| RedisRoundTrip.RoundTripIff | pkg/protocol/parser.go:372-494 | a printed list of frames with arbitrary binary contents is returned exactly, commands in upper case, if and only if it has no empty array and no empty bulk reply before the last place |
| RedisRoundTrip.RoundTripWithTail | pkg/protocol/parser.go:372-494 | with any bytes behind it, a list without empty arrays and empty bulk replies is the beginning of the result, and parsing goes on exactly behind it |
| RedisRoundTrip.FramesRead | pkg/protocol/parser.go:372-494 | for every list of frames and any tail: what exactly is returned |
| RedisRoundTrip.FrameRead | pkg/protocol/parser.go:393-494 | one printed frame anywhere in a buffer is read back, with the cursor behind it: the first word of an array as the command, with small letters made capital, the second as the key, the others as arguments; a reply's sign as the command, its line as the key and its data as the argument |
| RedisRoundTrip.InlineRead | pkg/protocol/parser.go:496-525 | a line that starts with a capital letter is read as the words in it: command, key and arguments |
| RedisRoundTrip.EmptyBulkHidesTheRest | pkg/protocol/parser.go:483-491 | an empty bulk reply hides the reply behind it, since its own line end is left unread |
| Envoy.EnvoyParser.ParseMultiple | pkg/protocol/envoy.go:270-301 | the cursor loop returns the messages of the stream |
| EnvoyModel.FramesRead | pkg/protocol/envoy.go:270-301 | a list of frames followed by anything that does not start with a whole frame is returned exactly, payloads and all header fields; the checksum field is the first four payload bytes, if there are four |
| EnvoyModel.MessagesTile | pkg/protocol/envoy.go:270-301 | every buffer is a list of frames and a rest that does not start with one, and the result is those frames: the messages tile a prefix of the buffer and none is missed |
| EnvoyModel.RecoveryUnreachable | pkg/protocol/envoy.go:290-294 | a frame that passed the checks of the loop always parses, so the branch that skips a byte is never taken |
| EnvoyModel.FrameRead | pkg/protocol/envoy.go:104-183 | a printed frame anywhere in a buffer is recognized and parsed back |
| EnvoyModel.MessageSays | pkg/protocol/envoy.go:104-251 | the message of a frame has its fields; which flags, first bytes and types make it a request, and which flag UDP |
| EnvoyModel.FrameAtEncodes | pkg/protocol/envoy.go:155-183 | printing a parsed frame gives the bytes it was parsed from |
| EnvoyModel.ExtractAgreesWithParse | pkg/protocol/envoy.go:303-320 | the extracted payload is the parsed one where Parse accepts the buffer, and the whole buffer elsewhere |
| EnvoyModel.ExtractUnwraps | pkg/protocol/envoy.go:303-320 | extracting from a printed frame gives what was wrapped |
| BigEndian.NumberOfBytes | pkg/protocol/envoy.go:160-168 | reading a printed big-endian number gives the number |
| AnomalyLaws.AverageIsWeightedMean | pkg/anomaly/anomaly.go:131-138 | EWMA is the exponentially weighted mean of all durations recorded |
| AnomalyLaws.VarianceIsMoment | pkg/anomaly/anomaly.go:131-138 | EWMAVar is the exponentially weighted second moment minus EWMA squared |
| AnomalyLaws.VarianceIsWeightedSpread | pkg/anomaly/anomaly.go:131-138 | EWMAVar is the weighted mean of the squared distances from EWMA, hence never negative |
| AnomalyLaws.WeightsSumToOne | pkg/anomaly/anomaly.go:131-138 | those weights sum to one |
| AnomalyModel.AverageStaysWithin | pkg/anomaly/anomaly.go:131-138 | EWMA stays within any bounds of the durations |
| AnomalyModel.AverageBetweenExtremes | pkg/anomaly/anomaly.go:131-138 | EWMA lies between the smallest and the largest duration and is zero only before the first, so the branch for zero is taken on the first sample only |
| AnomalyLaws.SampleVarianceIsUnbiased | pkg/anomaly/anomaly.go:126-144 | with two samples or more SumSq - Sum^2/n is the sum of squared deviations from Mean, so the cut at zero changes nothing and StdDev squared is the unbiased sample variance |
| AnomalyLaws.AlertIff | pkg/anomaly/anomaly.go:146-152 | the test after the update holds exactly when, before it, d = x - EWMA > 0 and d^2 (1 - alpha - k^2 alpha) > k^2 Var and there are enough samples |
| AnomalyLaws.FirstSampleNeverExceeds | pkg/anomaly/anomaly.go:131-152 | a first sample never passes the test |
| AnomalyLaws.NeverExceeds | pkg/anomaly/anomaly.go:146-152 | no sequence of durations passes it when alpha (1 + k^2) >= 1 |
| AnomalyLaws.AlertPossibleIff | pkg/anomaly/anomaly.go:146-152 | some sequence of durations passes it if and only if alpha (1 + k^2) < 1 |
| AnomalyLaws.ExceededBefore | pkg/anomaly/anomaly.go:335-356 | once there were enough samples, a duration that passes the test after its update passed it before |
| AnomalyRuns.StatsAreOfRemembered | pkg/anomaly/anomaly.go:103-144 | in any interleaving of spans of all operations and cleanups, an operation's statistics are those of exactly its durations since it was last forgotten |
| AnomalyRuns.AlertedIff | pkg/anomaly/anomaly.go:146-188 | in any run, exactly when a span is alerted on, in terms of the remembered durations and the cooldown |
| AnomalyRuns.NoAlertEver | pkg/anomaly/anomaly.go:103-188 | no run raises any alert when alpha (1 + k^2) >= 1 |
| AnomalyRuns.DefaultsNeverAlert | pkg/anomaly/anomaly.go:77-83 | the defaults 0.2 and 3.0 are such a configuration |
| AnomalyRuns.AlertedWasAnomaly | pkg/anomaly/anomaly.go:335-356 | once enough samples are remembered, a span that is alerted on satisfied IsAnomaly before it was recorded |
| AlertContents.AlertsSay | pkg/anomaly/anomaly.go:146-188 | every alert of every run is on one of its spans and at its time; with m and s^2 the weighted mean and spread of the remembered durations and its own, the severity is critical above 6m, error above 3m and warning otherwise, the deviation is 100 (x - m)/m and the threshold m + ks |
| AlertContents.SentIff | pkg/anomaly/anomaly.go:146-203 | in any run, exactly when a span is alerted on, in terms of the remembered durations and of the time of the last alert with its operation and severity |
| AlertContents.AnomalyIff | pkg/anomaly/anomaly.go:335-356 | in any run, exactly when IsAnomaly holds, in terms of the remembered durations |
| AnomalyRuns.AlertsKeepDistance | pkg/anomaly/anomaly.go:190-203 | with a clock that does not go back, two alerts under one key are more than the cooldown apart, or more than ten minutes if the cooldown is longer |
| CooldownRuns.CooldownKeptIff | pkg/anomaly/anomaly.go:190-203 | in every run with a clock that does not go back alerts under one key are more than cooldownSeconds apart, if and only if cooldownSeconds is at most 600 or alpha (1 + k^2) >= 1 |
| CooldownRuns.SpikesTooClose | pkg/anomaly/anomaly.go:295-305 | for every configuration with alpha (1 + k^2) < 1 a run with two alerts, one key and only ten minutes and a nanosecond between them, whatever the cooldown: two operations share a key, and the cleanup forgets it |
| AnomalyDetector.Detector.RecordSpan | pkg/anomaly/anomaly.go:103-188 | the new statistics, the new cooldown and the alert are the model's |
| AnomalyDetector.LatencyStats.Add | pkg/anomaly/anomaly.go:126-144 | the record after one duration |
| AnomalyDetector.Detector.ShouldSend | pkg/anomaly/anomaly.go:190-203 | true, with the time noted, exactly when the last alert under the key is longer ago than the cooldown |
| AnomalyDetector.Detector.IsAnomaly | pkg/anomaly/anomaly.go:335-356 | the test on the current statistics |
| AnomalyDetector.Detector.CleanupOldStats | pkg/anomaly/anomaly.go:283-293 | exactly the records older than an hour go |
| AnomalyDetector.Detector.CleanupOldCooldown | pkg/anomaly/anomaly.go:295-305 | exactly the entries older than ten minutes go |
| TraceTree.BuildTraceTree | pkg/model/trace.go:199-243 | every span's children are extended, in the order of the list, by the spans whose parent it is; the root is the last span without parent id; start and end are the minimum and maximum over all spans |
| TraceTree.IndexById | pkg/model/trace.go:204-212 | the last of several spans with one id is the one that is found |
| TraceTree.AttachChildren | pkg/model/trace.go:214-220 | the second loop, for any list, also with repeated objects |
| TraceTree.Extent | pkg/model/trace.go:228-238 | the earliest start and the latest end, both taken by some span |
| TraceTree.RootSpanTree | pkg/model/trace.go:199-226 | for any list of distinct spans without children, what hangs under the root is a finite tree in which each span that descends from the root comes exactly once and no other; it spans the list if and only if no other span is without a parent and parents do not run in circles |
| TraceTreeModel.SpansIff | pkg/model/trace.go:199-226 | the preorder under the root is a permutation of the list if and only if that holds |
| TraceTreeModel.UsualCaseSpans | pkg/model/trace.go:199-226 | so it is when one span has no parent id, every other parent id is present and there is no circle |
| TraceTreeModel.RootTree | pkg/model/trace.go:199-226 | whatever the list, the root has exactly one finite tree under it |
| TraceTreeModel.PreorderHasDescendantsOnce | pkg/model/trace.go:214-220 | a descendant of the root is in the preorder once, any other span not at all |
| TraceTreeModel.ChildrenInOrder | pkg/model/trace.go:214-220 | child lists keep the order of the list |
| TraceTreeModel.ParentIs | pkg/model/trace.go:214-220 | with unique ids the parent is the span whose id is the parent id |
| TraceTreeModel.ParentIff | pkg/model/trace.go:204-220 | in any list the parent of a span is the last span whose id is its parent id, if that is not empty |
| TraceTreeModel.RootIff | pkg/model/trace.go:204-212 | the root is the last span without a parent id |
| SpanTree.SortTreeIsCopy | pkg/compression/compressor.go:219-221 | sorting gives the same tree with every list of children permuted into the order of start times |
| SpanTree.CopyOfCopy | pkg/compression/compressor.go:219-221 | sorting again, with an unstable sort, still does |
| SubtreeStructure.PrintSaysShape | pkg/compression/compressor.go:212-233 | for services without ':' and operations without '[' and newline, two trees have the same structure string if and only if they are the same tree of services and operations |
| SubtreeStructure.OnlyShapeIff | pkg/compression/compressor.go:212-233 | among the trees without '[' and newline in their labels, all that have a tree's structure string have its shape if and only if none of its services and operations contains ':' |
| SubtreeStructure.PrintReads | pkg/compression/compressor.go:212-233 | a printed tree can be told apart from whatever follows it, and its labels can be read off, when labels contain neither '[' nor newline, or when services contain no ':' and operations neither '[' nor newline |
| SubtreeStructure.PrintSaysLabels | pkg/compression/compressor.go:212-233 | two such trees have the same structure string if and only if they are the same tree of labels |
| SubtreeStructure.BracketNotInjective | pkg/compression/compressor.go:212-233 | two different trees with one structure string, because of a bracket in an operation |
| SubtreeStructure.ColonNotInjective | pkg/compression/compressor.go:215 | two different trees with one structure string, because of a colon in a service |
| SubtreeStructure.NewlineNotInjective | pkg/compression/compressor.go:216-231 | a tree with one child and one with two that have one structure string, because of a newline in an operation |
| SubtreeMeasures.OperationsCount | pkg/compression/compressor.go:216 | there is one operation for each node |
| SubtreeMeasures.SortKeepsSize | pkg/compression/compressor.go:219-221 | sorting loses no span |
| SubtreeMeasures.DepthIsIndentation | pkg/compression/compressor.go:235-247 | the depth is one plus half the deepest indentation among the lines of the structure string |
| CompressionLaws.TraceRoundTrip | pkg/compression/compressor.go:249-310 | decompressing a compressed trace succeeds and gives the trace in everything but tags, with every list of children permuted into the order of start times, at every depth and for every mix of spans stored compressed and not |
| CompressionLaws.TaggedNeverPanics | pkg/compression/compressor.go:130-133 | a trace whose tags are nowhere nil is compressed without a panic |
| CompressionLaws.PanicsIff | pkg/compression/compressor.go:93-143 | compressing a trace panics if and only if some span of it, with the children of its ancestors sorted, has nil tags, at least 256 bytes of JSON, and ten times these are at least twelve times the encoded ones |
| StoredSpans.TraceStored | pkg/compression/compressor.go:93-284 | for every span at every depth: it is stored compressed if and only if that inequality holds; then its data, its sizes and its ratio are stored and tagged; its hash, height and number of spans are tagged; every other tag is as it was |
| CompressionLaws.DuplicatesNotTaggedAlone | pkg/compression/compressor.go:249-284 | after a call that runs alone every span of the trace, at any depth, has the tag for duplicates exactly if it had it before |
| CompressionLaws.SignatureTagsAdd | pkg/compression/compressor.go:259-268 | writing a signature's tags leaves the tag for duplicates exactly if the signature counts more than one or the tag was there |
| SharedSignatures.TagWrittenIff | pkg/compression/compressor.go:187-268 | under every schedule of any number of calls, a call finds a count above one in its own signature if and only if another call looked up the same hash in the meantime and found this very object in the cache |
| SharedSignatures.OneWorkerNeverTags | pkg/compression/compressor.go:187-268 | under every schedule of a single worker, however many equal trees it compresses, the count it finds is one |
| SharedSignatures.OverlapWritesTag | pkg/compression/compressor.go:187-268 | a schedule of two calls on equal trees in which the first one finds the count two |
| SharedSignatures.RunCountsHits | pkg/compression/compressor.go:187-197 | every signature object counts one for its own computation and one for each lookup that found it |
| SignatureCache.RememberedFits | pkg/compression/compressor.go:187-197 | after a lookup the cache is within its bound (or one, if that is less), with every signature under its own hash |
| SignatureCache.OthersStay | pkg/compression/compressor.go:187-197 | every signature but the one looked up and the one evicted is there as it was |
| SignatureCache.OnceSeenGoesFirst | pkg/compression/compressor.go:193-196 | a signature is evicted if and only if a new one meets a full cache, and one that was seen once goes if there is any |
| Compressor.BuildSubtreeStructure | pkg/compression/compressor.go:212-233 | the text of the sorted tree, and its operations appended in preorder |
| Compressor.CountDepth | pkg/compression/compressor.go:235-247 | the height of the tree |
| Compressor.Compressor.CompressSpan | pkg/compression/compressor.go:93-143 | the span with its tags, its compressed form if it passes the thresholds, and the counters |
| Compressor.Compressor.CompressTrace | pkg/compression/compressor.go:249-284 | the compressed tree; every span of the tree is counted once and looked up in the cache once, and the totals grow by the number and the sizes of the spans stored compressed |
| Compressor.Compressor.DecompressTrace | pkg/compression/compressor.go:286-310 | the decompressed tree or an error |
| Compressor.Compressor.CompressOwn | pkg/compression/compressor.go:249-268 | one span without its children: one count, one lookup, and the tags of its signature object as it stands after the lookup |
| Compressor.Compressor.ComputeSubtreeSignature | pkg/compression/compressor.go:167-210 | a new object with the signature of the sorted tree; a hit exactly if the cache had its hash, and the cache is as after that lookup, with nothing gone but the evicted signature |
| Compressor.Compressor.Remember | pkg/compression/compressor.go:187-207 | a known signature is counted once more and nothing else changes, which is a hit; a new one is a miss, and enters the cache as the object it is, with count one, at the cost of the evicted signature, if one was evicted |
| Compressor.Compressor.CountAgain | pkg/compression/compressor.go:189-191 | the cached object is counted up in place, and no other |
| Compressor.Compressor.Insert | pkg/compression/compressor.go:193-196 | the cache is the old one without the evicted signature, if there is one, and with the new one; one is evicted exactly if the cache was full |
| Compressor.Compressor.EvictOldCache | pkg/compression/compressor.go:378-395 | exactly one signature goes, one that was seen once if there is any |
| FlameGraph.ConvertSpan | pkg/flamegraph/flamegraph.go:86-115 | the frames of the sorted tree |
| FlameGraph.Canvas.DrawFrame | pkg/flamegraph/flamegraph.go:186-224 | the rectangles written for a frame and all above it |
| FlameGraph.CalculateMaxDepth | pkg/flamegraph/flamegraph.go:249-262 | the number of levels, counted from the given one |
| FlameGraph.ToSvg | pkg/flamegraph/flamegraph.go:136-184 | the rectangles and the height of the picture |
| FlameLayout.FlamesNest | pkg/flamegraph/flamegraph.go:166-224 | if no frame's children have more value than the frame, all rectangles lie within the width, those of one row do not overlap and come in order, each stands on one of the row before that covers it, and no row is wider than the picture |
| FlameLayout.FlamesFitHeight | pkg/flamegraph/flamegraph.go:145-146 | every rectangle, whether values nest or not, lies between title and footer of the computed height, next to them if it is in the first or the last row, and has a height that is not negative exactly when rows are at least one high |
| FlameOverhang.PictureOnParentsIff | pkg/flamegraph/flamegraph.go:186-224 | for all values: every drawn child lies on its own parent's rectangle if and only if, for every drawn child, the values before it in its frame are at least zero together, and with its own at most the frame's |
| FlameOverhang.NoOverhangIff | pkg/flamegraph/flamegraph.go:186-224 | for values that are not negative: if and only if, for each drawn frame, the values up to and including its last drawn child add up to no more than its value |
| FlameOverhang.ConcurrentCallsOverlap | pkg/flamegraph/flamegraph.go:219-223 | a root of 10 with two calls of 5, one with a call of 10 and one with a call of 5 in it, is drawn with overlapping rectangles |
| FlameOverhang.InRowsIff | pkg/flamegraph/flamegraph.go:186-224 | for all values: the rectangles of each row come in order and do not overlap if and only if the same holds of the sums of values that they stand for |
| FlameOverhang.NestedOnParents | pkg/flamegraph/flamegraph.go:186-224 | if no frame's children have more value than the frame, every rectangle stands on that of its own parent |
| FlameLayout.NestedTracesNest | pkg/flamegraph/flamegraph.go:86-115 | a trace whose spans' children take no longer together than the spans gives such frames, also after rounding and sorting |
| FlameTexts.FramesShow | pkg/flamegraph/flamegraph.go:86-115 | each frame has the texts and the duration of its span, and as value the duration in microseconds cut towards zero |
| FlameTexts.FoldedSays | pkg/flamegraph/flamegraph.go:117-134 | the i-th line has the names on the path of the i-th frame in preorder, with semicolons between them, and its value; the path goes on from that of the frame's parent |
| FlameFolded.CollectFolded | pkg/flamegraph/flamegraph.go:124-134 | the lines written are those of all paths from the frame upwards, and the caller's stack reads the same afterwards although its array was written to |
| FlameFolded.Append | pkg/flamegraph/flamegraph.go:125 | appending writes in place if there is room and copies otherwise |
| FlameFolded.ToFolded | pkg/flamegraph/flamegraph.go:117-122 | one line for each path from the root, in preorder, however much room appending leaves |
| FlameStats.StatsExplained | pkg/flamegraph/flamegraph.go:264-291 | for every name CallCount is the number of frames of that name, TotalTime the sum of their durations, Percentage that final total over the root's duration, and SelfTime that of the last such frame in postorder |
| FlameStats.GetFrameStats | pkg/flamegraph/flamegraph.go:264-269 | the table of the whole flame graph |
| FlameStats.StatsTable.CollectFrameStats | pkg/flamegraph/flamegraph.go:271-291 | the table after the walk |
| BatchLaws.OrderKept | pkg/storage/clickhouse.go:171-215 | under every interleaving the batches handed to flush, the batch and the queue are together the accepted spans in order |
| BatchLaws.SavesExplained | pkg/storage/clickhouse.go:171-184 | TotalSpans = accepted spans + DroppedSpans + calls under way |
| BatchLaws.BatchesProper | pkg/storage/clickhouse.go:199-260 | a flushed batch has at least one span and at most batchSize, and a flush fails only after all its retries |
| BatchLaws.CountersExplained | pkg/storage/clickhouse.go:217-260 | FlushedBatches + FailedBatches counts the flushes, and maxRetries * Failed <= RetriedBatches <= maxRetries * (Failed + Flushed) while no flush is under way |
| BatchLaws.NothingAfterStop | pkg/storage/clickhouse.go:195-197 | after the stop no span is flushed any more, and what the queue holds stays there |
| BatchLaws.AllHandedIff | pkg/storage/clickhouse.go:195-197 | from the stop on, everything accepted has been handed to a flush if and only if the queue is empty |
| BatchLaws.StopCanLeaveSpan | pkg/storage/clickhouse.go:171-197 | a run that stops with an accepted span in the queue, which was handed to no flush |
| BatchLaws.DroppedIffFull | pkg/storage/clickhouse.go:171-184 | a span that is offered is dropped if the queue is full, and queued otherwise |
| BatchLaws.FlushBeginsIff | pkg/storage/clickhouse.go:195-215 | a flush begins if and only if a span fills the batch, or a tick or the stop comes while it has any |
| BatchLaws.StepSound | pkg/storage/clickhouse.go:171-260 | every step of every participant keeps all of this |
| BatchLaws.FlushAllIs | pkg/storage/clickhouse.go:235-260 | a flush ends with its first successful attempt or after the last retry, with this many retries counted |
| BatchLaws.FlushAllIsRun | pkg/storage/clickhouse.go:235-260 | a flush without interruption is a run of its attempts |
| BatchWriter.ClickHouseStore.constructor | pkg/storage/clickhouse.go:44-113 | values that are not positive stand for 100000, 10000 and 3 |
| BatchWriter.ClickHouseStore.SaveSpan | pkg/storage/clickhouse.go:171-184 | the span is queued if there is room, and counted as dropped otherwise |
| BatchWriter.ClickHouseStore.FlushWithRetry | pkg/storage/clickhouse.go:235-260 | attempts until the first success, at most maxRetries after the first one |
| BatchWriter.ClickHouseStore.FlushBatch | pkg/storage/clickhouse.go:217-233 | a batch that is not empty is flushed and counted, and the buffer starts again |
| BatchWriter.ClickHouseStore.OnSpan | pkg/storage/clickhouse.go:199-206 | a span from the queue enters the buffer, and a full buffer is flushed |
| BatchWriter.ClickHouseStore.OnTick | pkg/storage/clickhouse.go:208-212 | a tick flushes what is there |
| BatchWriter.ClickHouseStore.OnStop | pkg/storage/clickhouse.go:195-197 | the stop flushes the batch and leaves the queue |

## Left out

- CorrelatorModel: the counters are unbounded integers, which the program stores modulo 2^64 (`GaugeDrift` shows that the gauges never go below zero); wrapping is modelled in CorrelatorWorkers. An event sees one time throughout, and durations are whole nanoseconds rather than floating-point milliseconds.
- SpanCorrelator: spans are entries of a table and pointers to them are indices, so that every holder of a pointer sees an update; the fields of a span that the correlator does not touch are not there. The random span id and the hash that becomes a trace id are attributes of the span, drawn beforehand.
- CorrelatorWorkers: the connection gauge, the pending list, the spans' contents and the cleanup tick; only sends, receives and late matches, with connections opened and closed around them, are interleaved.
- ConvertRawEventToSpan and the protocol parser's effect on a span: the converted span is a free input of each event, so that the trace id can be empty or not, although the program's conversion always yields a string of 33 bytes.
- Redis.RedisParser.ParseRESPArray: the program reserves room for as many arguments as the header declares, before it reads any, and panics or runs out of memory when that is too much; the model, without a bound on memory, reads the elements that are there.
- RedisModel: declared lengths are unbounded integers, so that an addition does not overflow; ToUpper and Fields of text that is not plain ASCII are parameters.
- EnvoyModel: the guess of the inner protocol, CanHandle, and the tags that Parse writes when it is given a span.
- HTTP and gRPC parsing and the choice of a protocol by port and payload: heuristics.
- AnomalyModel: durations and statistics are reals, not floating-point numbers, and the square root is exact; counts and the product of cooldown and seconds do not overflow. The alert channel and the alert manager.
- TraceTree: subtraction of times saturates in the program; here it does not. Nil spans are not modelled.
- CompressionModel: JSON, zstd and FNV are parameters, the first two inverse pairs up to tags; spans are values, so a span object that occurs twice in one trace is two spans. The average ratio among the counters, and the search for similar traces.
- Compressor: one call at a time, as above; in SharedSignatures calls overlap, with nothing but the cache and the signature objects.
- FlameModel: frames are values, since nothing updates them after they are built; the integer conversion does not overflow. Widths, positions and times are reals in the flame graph modules, where the program has floating-point numbers: a rectangle that is exactly as wide as what it stands on can be off by a rounding error there. Colours, texts and the SVG around the rectangles, and the list of hot spots.
- FlameStats: the entries of the table are values rather than objects, since only the table refers to them.
- BatchModel: what an attempt to send does is a success or a failure; backoff times and log lines.
- Sampling, the REST API, queries, configuration and the eBPF probes: plumbing, kernel code or randomness. Of the probes only the order in which they report endpoints is used.
