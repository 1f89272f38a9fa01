/** What the latency anomaly detector computes, over the reals. The square root is a parameter, and a
    call sees one time throughout. */
module AnomalyModel {
  import opened Options
  import opened RealAlgebra

  type Sqrt = real -> real

  ghost predicate IsSqrt(sqrt: Sqrt) {
    forall v: real :: v >= 0.0 ==> sqrt(v) >= 0.0 && sqrt(v) * sqrt(v) == v
  }

  datatype Config = Config(alpha: real, deviationThreshold: real, minSamples: int, cooldownSeconds: int)

  const DEFAULTS := Config(0.2, 3.0, 100, 60)

  const SECOND: int := 1_000_000_000

  /** The number of samples asked for, converted to 64 bits without sign. */
  function Needed(cfg: Config): int {
    if cfg.minSamples < 0 then cfg.minSamples + 0x1_0000_0000_0000_0000 else cfg.minSamples
  }

  datatype Stats = Stats(count: nat, sum: real, sumSq: real, ewma: real, ewmaVar: real, mean: real, stdDev: real)

  const NO_STATS := Stats(0, 0.0, 0.0, 0.0, 0.0, 0.0, 0.0)

  function Max(a: real, b: real): real { if a >= b then a else b }

  function SquaresAboutMean(st: Stats): real
    requires st.count > 0
  {
    st.sumSq - st.sum * st.sum / st.count as real
  }

  function Variance(st: Stats): real
    requires st.count > 1
  {
    SquaresAboutMean(st) / (st.count - 1) as real
  }

  function Counted(st: Stats, x: real): Stats {
    st.(count := st.count + 1, sum := st.sum + x, sumSq := st.sumSq + x * x)
  }

  function Smoothed(cfg: Config, st: Stats, x: real): Stats {
    if st.ewma == 0.0 then st.(ewma := x, ewmaVar := 0.0)
    else
      var diff := x - st.ewma;
      st.(ewma := st.ewma + cfg.alpha * diff,
          ewmaVar := (1.0 - cfg.alpha) * (st.ewmaVar + cfg.alpha * diff * diff))
  }

  function Spread(sqrt: Sqrt, st: Stats): Stats
    requires st.count > 0
  {
    st.(mean := st.sum / st.count as real,
        stdDev := if st.count > 1 then sqrt(Max(0.0, Variance(st))) else st.stdDev)
  }

  /** One duration enters the statistics. */
  function Update(cfg: Config, sqrt: Sqrt, st: Stats, x: real): (st': Stats)
    ensures st'.count == st.count + 1
  {
    Spread(sqrt, Smoothed(cfg, Counted(st, x), x))
  }

  function Threshold(cfg: Config, sqrt: Sqrt, st: Stats): real {
    st.ewma + cfg.deviationThreshold * sqrt(st.ewmaVar)
  }

  /** The test both RecordSpan and IsAnomaly make; the root of a negative variance exceeds nothing. */
  predicate Exceeds(cfg: Config, sqrt: Sqrt, st: Stats, x: real) {
    st.count >= Needed(cfg) && st.ewmaVar >= 0.0 && x > Threshold(cfg, sqrt, st)
  }

  datatype OperationKey = OperationKey(service: string, operation: string, protocol: string)

  datatype Span = Span(key: OperationKey, traceId: string, spanId: string, durationMs: real)

  /** How far above the average, in percent; None stands for an infinite deviation. */
  function Deviation(st: Stats, x: real): Option<real> {
    if st.ewma == 0.0 then None else Some((x - st.ewma) / st.ewma * 100.0)
  }

  function Severity(deviation: Option<real>): string {
    if deviation.None? || deviation.value > 500.0 then "critical"
    else if deviation.value > 200.0 then "error"
    else "warning"
  }

  datatype Alert = Alert(span: Span, time: int, severity: string, threshold: real, deviation: Option<real>)

  function AlertKey(key: OperationKey, severity: string): string {
    key.service + ":" + key.operation + ":" + key.protocol + ":" + severity
  }

  function KeyOf(a: Alert): string { AlertKey(a.span.key, a.severity) }

  /** Whether the last alert under this key is long enough ago; times are in nanoseconds. */
  predicate Cool(cfg: Config, cooldown: map<string, int>, alertKey: string, now: int) {
    alertKey !in cooldown || now - cooldown[alertKey] > cfg.cooldownSeconds * SECOND
  }

  datatype Entry = Entry(stats: Stats, lastUpdate: int)

  datatype State = State(stats: map<OperationKey, Entry>, cooldown: map<string, int>)

  const FRESH := State(map[], map[])

  function StatsOf(s: State, key: OperationKey): Stats {
    if key in s.stats then s.stats[key].stats else NO_STATS
  }

  function AlertFor(cfg: Config, sqrt: Sqrt, st: Stats, span: Span, now: int): Alert {
    var deviation := Deviation(st, span.durationMs);
    Alert(span, now, Severity(deviation), Threshold(cfg, sqrt, st), deviation)
  }

  function ShouldSend(cfg: Config, s: State, alertKey: string, now: int): (State, bool) {
    if Cool(cfg, s.cooldown, alertKey, now) then (s.(cooldown := s.cooldown[alertKey := now]), true) else (s, false)
  }

  /** The new state and the alert, if one goes out. */
  function RecordSpan(cfg: Config, sqrt: Sqrt, s: State, span: Option<Span>, now: int): (State, Option<Alert>) {
    if span.None? || span.value.durationMs <= 0.0 then (s, None)
    else
      var key, x := span.value.key, span.value.durationMs;
      var st := Update(cfg, sqrt, StatsOf(s, key), x);
      var s1 := s.(stats := s.stats[key := Entry(st, now)]);
      if !Exceeds(cfg, sqrt, st, x) then (s1, None)
      else
        var alert := AlertFor(cfg, sqrt, st, span.value, now);
        var (s2, send) := ShouldSend(cfg, s1, KeyOf(alert), now);
        (s2, if send then Some(alert) else None)
  }

  lemma OnlyEntryChanged(s: State, t: State, key: OperationKey, entry: Entry)
    requires s.cooldown == t.cooldown && key in t.stats && t.stats[key] == entry
    requires forall k :: k in t.stats ==> k == key || (k in s.stats && t.stats[k] == s.stats[k])
    requires forall k :: k in s.stats ==> k in t.stats
    ensures t == s.(stats := s.stats[key := entry])
  {
    assert t.stats == s.stats[key := entry];
  }

  predicate IsAnomaly(cfg: Config, sqrt: Sqrt, s: State, span: Option<Span>) {
    span.Some? && span.value.durationMs > 0.0 && span.value.key in s.stats &&
    Exceeds(cfg, sqrt, s.stats[span.value.key].stats, span.value.durationMs)
  }

  function CleanupStats(s: State, now: int): State {
    s.(stats := map k | k in s.stats && s.stats[k].lastUpdate >= now - 3600 * SECOND :: s.stats[k])
  }

  lemma CleanupStatsIs(s: State, t: State, now: int)
    requires s.cooldown == t.cooldown
    requires forall k :: k in t.stats ==> k in s.stats && t.stats[k] == s.stats[k]
    requires forall k :: k in s.stats ==> (k in t.stats <==> s.stats[k].lastUpdate >= now - 3600 * SECOND)
    ensures t == CleanupStats(s, now)
  {
    assert t.stats == CleanupStats(s, now).stats;
  }

  function CleanupCooldown(s: State, now: int): State {
    s.(cooldown := map k | k in s.cooldown && s.cooldown[k] >= now - 600 * SECOND :: s.cooldown[k])
  }

  // ---------- the statistics of a sequence of durations ----------

  function Run(cfg: Config, sqrt: Sqrt, xs: seq<real>): (st: Stats)
    ensures st.count == |xs|
  {
    if xs == [] then NO_STATS
    else Update(cfg, sqrt, Run(cfg, sqrt, xs[..|xs| - 1]), xs[|xs| - 1])
  }

  predicate Positive(xs: seq<real>) {
    forall i :: 0 <= i < |xs| ==> xs[i] > 0.0
  }

  lemma UpdateAverages(cfg: Config, sqrt: Sqrt, st: Stats, x: real)
    ensures Update(cfg, sqrt, st, x).ewma == Smoothed(cfg, st, x).ewma
    ensures Update(cfg, sqrt, st, x).ewmaVar == Smoothed(cfg, st, x).ewmaVar
  {
  }

  lemma RunSnoc(cfg: Config, sqrt: Sqrt, xs: seq<real>, x: real)
    ensures Run(cfg, sqrt, xs + [x]) == Update(cfg, sqrt, Run(cfg, sqrt, xs), x)
  {
    hide Update;
    assert (xs + [x])[..|xs|] == xs;
  }

  /** The average stays within any bounds of the samples. So it is never zero after the first sample, and
      the branch that starts it afresh is taken on the first sample only. */
  lemma {:induction false} AverageStaysWithin(cfg: Config, sqrt: Sqrt, xs: seq<real>, lo: real, hi: real)
    requires xs != [] && 0.0 <= cfg.alpha <= 1.0
    requires 0.0 < lo && forall i :: 0 <= i < |xs| ==> lo <= xs[i] <= hi
    ensures lo <= Run(cfg, sqrt, xs).ewma <= hi
  {
    hide Update;
    var front, x := xs[..|xs| - 1], xs[|xs| - 1];
    var st := Run(cfg, sqrt, front);
    UpdateAverages(cfg, sqrt, st, x);
    if front != [] {
      AverageStaysWithin(cfg, sqrt, front, lo, hi);
      Between(st.ewma, x, cfg.alpha, lo, hi);
    }
  }

  /** Some bounds, the lower one positive, that the samples reach. */
  lemma {:induction false} Bounds(xs: seq<real>) returns (lo: real, hi: real)
    requires xs != [] && Positive(xs)
    ensures 0.0 < lo && lo in xs && hi in xs
    ensures forall i :: 0 <= i < |xs| ==> lo <= xs[i] <= hi
  {
    var n := |xs| - 1;
    var front, x := xs[..n], xs[n];
    assert xs == front + [x];
    if n == 0 {
      lo, hi := x, x;
    } else {
      lo, hi := Bounds(front);
      lo, hi := if x < lo then x else lo, if x > hi then x else hi;
    }
  }

  /** The average lies between the smallest and the largest sample, and it is zero only before the first. */
  lemma AverageBetweenExtremes(cfg: Config, sqrt: Sqrt, xs: seq<real>) returns (lo: real, hi: real)
    requires xs != [] && Positive(xs) && 0.0 <= cfg.alpha <= 1.0
    ensures lo in xs && hi in xs && forall i :: 0 <= i < |xs| ==> lo <= xs[i] <= hi
    ensures 0.0 < lo <= Run(cfg, sqrt, xs).ewma <= hi
  {
    lo, hi := Bounds(xs);
    AverageStaysWithin(cfg, sqrt, xs, lo, hi);
  }

  /** What one more positive duration does, once there is a sample. */
  lemma NextSample(cfg: Config, sqrt: Sqrt, xs: seq<real>, x: real)
    requires xs != [] && Positive(xs) && 0.0 <= cfg.alpha <= 1.0
    ensures var st, st' := Run(cfg, sqrt, xs), Run(cfg, sqrt, xs + [x]); var d := x - st.ewma;
            && st'.ewma == st.ewma + cfg.alpha * d
            && st'.ewmaVar == (1.0 - cfg.alpha) * (st.ewmaVar + cfg.alpha * d * d)
  {
    hide Update;
    var lo, hi := AverageBetweenExtremes(cfg, sqrt, xs);
    RunSnoc(cfg, sqrt, xs, x);
    UpdateAverages(cfg, sqrt, Run(cfg, sqrt, xs), x);
  }

  lemma OneSample(cfg: Config, sqrt: Sqrt, x: real)
    ensures Run(cfg, sqrt, [x]).ewma == x && Run(cfg, sqrt, [x]).ewmaVar == 0.0
  {
    hide Update;
    RunSnoc(cfg, sqrt, [], x);
    assert [] + [x] == [x];
    UpdateAverages(cfg, sqrt, NO_STATS, x);
  }
}
