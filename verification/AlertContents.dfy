/** What an alert says and when it goes out, in terms of the durations remembered and the alerts before it. */
module AlertContents {
  import opened Options
  import opened RealAlgebra
  import opened AnomalyModel
  import opened AnomalyLaws
  import opened AnomalyRuns

  // ---------- what an alert says ----------

  /** The weighted mean of the durations, and their weighted spread around it. */
  function MeanOf(cfg: Config, xs: seq<real>): real { WeightedAll(cfg.alpha, xs, Id) }

  function SpreadOf(cfg: Config, xs: seq<real>): real { WeightedAll(cfg.alpha, xs, SquareFrom(MeanOf(cfg, xs))) }

  /** How bad a duration of x is where m is usual. */
  function Grade(x: real, m: real): string {
    if x > 6.0 * m then "critical" else if x > 3.0 * m then "error" else "warning"
  }

  predicate IsRoot(s: real, v: real) { s >= 0.0 && s * s == v }

  /** The alert is on this span at this time, whose duration is the last of xs. */
  ghost predicate Says(cfg: Config, alert: Alert, span: Span, at: int, xs: seq<real>) {
    var x, m := span.durationMs, MeanOf(cfg, xs);
    && alert.span == span && alert.time == at
    && alert.severity == Grade(x, m)
    && m > 0.0 && alert.deviation == Some(100.0 * (x - m) / m)
    && exists s: real :: IsRoot(s, SpreadOf(cfg, xs)) && alert.threshold == m + cfg.deviationThreshold * s
  }

  lemma DeviationIs(x: real, m: real)
    requires m > 0.0
    ensures (x - m) / m * 100.0 == 100.0 * (x - m) / m
    ensures (x - m) / m * 100.0 > 500.0 <==> x > 6.0 * m
    ensures (x - m) / m * 100.0 > 200.0 <==> x > 3.0 * m
  {
    var q := (x - m) / m;
    assert q * m == x - m;
    StrictlyMonotone(m, 5.0, q);
    StrictlyMonotone(m, 2.0, q);
    assert m * q == q * m;
    assert 100.0 * (x - m) == (100.0 * q) * m;
    assert (100.0 * q) * m / m == 100.0 * q;
  }

  /** What the statistics of some durations say about the last of them. */
  lemma AlertForSays(cfg: Config, sqrt: Sqrt, xs: seq<real>, span: Span, at: int)
    requires IsSqrt(sqrt) && Usable(cfg) && xs != [] && Positive(xs)
    ensures Says(cfg, AlertFor(cfg, sqrt, Run(cfg, sqrt, xs), span, at), span, at, xs)
  {
    hide Run, WeightedAll;
    var st, x := Run(cfg, sqrt, xs), span.durationMs;
    var a := AlertFor(cfg, sqrt, st, span, at);
    AverageIsWeightedMean(cfg, sqrt, xs);
    VarianceIsWeightedSpread(cfg, sqrt, xs);
    var lo, hi := AverageBetweenExtremes(cfg, sqrt, xs);
    DeviationIs(x, st.ewma);
    var s := sqrt(st.ewmaVar);
    assert IsRoot(s, SpreadOf(cfg, xs)) && a.threshold == MeanOf(cfg, xs) + cfg.deviationThreshold * s;
  }

  lemma RecordedSays(cfg: Config, sqrt: Sqrt, s: State, span: Option<Span>, at: int)
    ensures var alert := RecordSpan(cfg, sqrt, s, span, at).1;
            alert.Some? ==>
              && span.Some? && span.value.durationMs > 0.0
              && alert.value == AlertFor(cfg, sqrt, Update(cfg, sqrt, StatsOf(s, span.value.key), span.value.durationMs), span.value, at)
  {
    hide Update, Exceeds, AlertFor, KeyOf, Cool;
  }

  /** Whatever happened before, an alert says where the span's duration stands among the remembered ones of its
      operation, with itself. */
  lemma {:induction false} AlertSays(cfg: Config, sqrt: Sqrt, es: seq<Event>, span: Span, at: int)
    requires IsSqrt(sqrt) && Usable(cfg)
    ensures var alert := RecordSpan(cfg, sqrt, After(cfg, sqrt, es), Some(span), at).1;
            alert.Some? ==> Says(cfg, alert.value, span, at, Remembered(es, span.key) + [span.durationMs])
  {
    hide RecordSpan, Update, Run, AlertFor, After, Remembered, Says;
    var s, xs, x := After(cfg, sqrt, es), Remembered(es, span.key), span.durationMs;
    RecordedSays(cfg, sqrt, s, Some(span), at);
    StatsAreOfRemembered(cfg, sqrt, es, span.key);
    RunSnoc(cfg, sqrt, xs, x);
    if RecordSpan(cfg, sqrt, s, Some(span), at).1.Some? {
      AlertForSays(cfg, sqrt, xs + [x], span, at);
    }
  }

  /** Every alert of a run is on one of its spans, and says this. */
  lemma {:induction false} AlertsSay(cfg: Config, sqrt: Sqrt, es: seq<Event>, i: nat) returns (n: nat)
    requires IsSqrt(sqrt) && Usable(cfg) && i < |Alerts(cfg, sqrt, es)|
    ensures n < |es| && es[n].Recorded? && es[n].span.Some?
    ensures var span := es[n].span.value;
            Says(cfg, Alerts(cfg, sqrt, es)[i], span, es[n].at, Remembered(es[..n], span.key) + [span.durationMs])
  {
    hide RecordSpan, After, Remembered, Says;
    var front, e := es[..|es| - 1], es[|es| - 1];
    var before := Alerts(cfg, sqrt, front);
    if i < |before| {
      n := AlertsSay(cfg, sqrt, front, i);
      assert es[..n] == front[..n];
    } else {
      n := |es| - 1;
      RecordedSays(cfg, sqrt, After(cfg, sqrt, front), e.span, e.at);
      AlertSays(cfg, sqrt, front, e.span.value, e.at);
    }
  }

  // ---------- when an alert goes out ----------

  /** Alerts of one operation and one severity share a cooldown. */
  function CooldownKey(key: OperationKey, severity: string): string {
    key.service + ":" + key.operation + ":" + key.protocol + ":" + severity
  }

  /** When the last alert went out under this key; ten minutes later a cleanup forgets it. */
  function LastSent(cfg: Config, sqrt: Sqrt, es: seq<Event>, key: string): Option<int> {
    if es == [] then None
    else
      var front, e := es[..|es| - 1], es[|es| - 1];
      var alert, last := Step(cfg, sqrt, After(cfg, sqrt, front), e).1, LastSent(cfg, sqrt, front, key);
      if alert.Some? && CooldownKey(alert.value.span.key, alert.value.severity) == key then Some(e.at)
      else if e.CooldownCleaned? && last.Some? && last.value < e.at - 600 * SECOND then None
      else last
  }

  lemma KeyOfIs(a: Alert)
    ensures KeyOf(a) == CooldownKey(a.span.key, a.severity)
  {
  }

  lemma {:induction false} CooldownIs(cfg: Config, sqrt: Sqrt, es: seq<Event>, key: string)
    ensures var c, last := After(cfg, sqrt, es).cooldown, LastSent(cfg, sqrt, es, key);
            (key in c <==> last.Some?) && (key in c ==> last == Some(c[key]))
  {
    hide RecordSpan, CooldownKey, KeyOf;
    if es != [] {
      var front, e := es[..|es| - 1], es[|es| - 1];
      CooldownIs(cfg, sqrt, front, key);
      if e.Recorded? {
        RecordCooldown(cfg, sqrt, After(cfg, sqrt, front), e.span, e.at);
        var alert := RecordSpan(cfg, sqrt, After(cfg, sqrt, front), e.span, e.at).1;
        if alert.Some? {
          KeyOfIs(alert.value);
        }
      }
    }
  }

  /** A span is alerted on exactly when its duration stands out from those remembered of its operation, and the last
      alert of the operation and the severity is longer ago than the cooldown. */
  lemma {:induction false} SentIff(cfg: Config, sqrt: Sqrt, es: seq<Event>, span: Span, at: int)
    requires IsSqrt(sqrt) && Usable(cfg) && span.durationMs > 0.0
    ensures var xs, x, k := Remembered(es, span.key), span.durationMs, cfg.deviationThreshold;
            var d := x - MeanOf(cfg, xs);
            var last := LastSent(cfg, sqrt, es, CooldownKey(span.key, Grade(x, MeanOf(cfg, xs + [x]))));
            RecordSpan(cfg, sqrt, After(cfg, sqrt, es), Some(span), at).1.Some? <==>
            && xs != [] && |xs| + 1 >= Needed(cfg)
            && d > 0.0 && d * d * (1.0 - cfg.alpha - k * k * cfg.alpha) > k * k * SpreadOf(cfg, xs)
            && (last.None? || at - last.value > cfg.cooldownSeconds * SECOND)
  {
    hide RecordSpan, Update, Run, KeyOf, AlertFor, After, Remembered, WeightedAll, CooldownKey, LastSent, Grade;
    var xs, x := Remembered(es, span.key), span.durationMs;
    var s, all := After(cfg, sqrt, es), xs + [x];
    AlertedIff(cfg, sqrt, es, span, at);
    StatsAreOfRemembered(cfg, sqrt, es, span.key);
    var alert := AlertFor(cfg, sqrt, Run(cfg, sqrt, all), span, at);
    AlertForSays(cfg, sqrt, all, span, at);
    KeyOfIs(alert);
    CooldownIs(cfg, sqrt, es, KeyOf(alert));
    if xs != [] {
      AverageIsWeightedMean(cfg, sqrt, xs);
      VarianceIsWeightedSpread(cfg, sqrt, xs);
    }
  }

  /** IsAnomaly compares a duration with the remembered ones alone: it must be above their mean by more than k roots of
      their spread. */
  lemma {:induction false} AnomalyIff(cfg: Config, sqrt: Sqrt, es: seq<Event>, span: Span)
    requires IsSqrt(sqrt) && Usable(cfg)
    ensures var xs, k := Remembered(es, span.key), cfg.deviationThreshold;
            var d := span.durationMs - MeanOf(cfg, xs);
            IsAnomaly(cfg, sqrt, After(cfg, sqrt, es), Some(span)) <==>
            && span.durationMs > 0.0 && xs != [] && |xs| >= Needed(cfg)
            && d > 0.0 && d * d > k * k * SpreadOf(cfg, xs)
  {
    hide Run, After, Remembered, WeightedAll;
    var s, xs, k := After(cfg, sqrt, es), Remembered(es, span.key), cfg.deviationThreshold;
    StatsAreOfRemembered(cfg, sqrt, es, span.key);
    if xs != [] {
      AverageIsWeightedMean(cfg, sqrt, xs);
      VarianceIsWeightedSpread(cfg, sqrt, xs);
      var v := SpreadOf(cfg, xs);
      ExceedsBySquares(span.durationMs - MeanOf(cfg, xs), k, sqrt(v), v);
    }
  }

  lemma ExceedsBySquares(d: real, k: real, r: real, v: real)
    requires k >= 0.0 && IsRoot(r, v)
    ensures d > k * r <==> d > 0.0 && d * d > k * k * v
  {
    NonNegative(k, r);
    assert (k * r) * (k * r) == k * k * (r * r);
    if d > 0.0 {
      SquaresCompare(d, k * r);
    }
  }
}
