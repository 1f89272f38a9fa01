/** The detector over whole runs: spans of all operations arrive interleaved, and old statistics and old
    cooldowns are thrown away in between. */
module AnomalyRuns {
  import opened Options
  import opened AnomalyModel
  import opened AnomalyLaws

  datatype Event =
    | Recorded(span: Option<Span>, at: int)
    | StatsCleaned(at: int)
    | CooldownCleaned(at: int)

  function Step(cfg: Config, sqrt: Sqrt, s: State, e: Event): (State, Option<Alert>) {
    match e
    case Recorded(span, at) => RecordSpan(cfg, sqrt, s, span, at)
    case StatsCleaned(at) => (CleanupStats(s, at), None)
    case CooldownCleaned(at) => (CleanupCooldown(s, at), None)
  }

  function After(cfg: Config, sqrt: Sqrt, es: seq<Event>): State {
    if es == [] then FRESH
    else Step(cfg, sqrt, After(cfg, sqrt, es[..|es| - 1]), es[|es| - 1]).0
  }

  function Alerts(cfg: Config, sqrt: Sqrt, es: seq<Event>): seq<Alert> {
    if es == [] then []
    else
      var front, e := es[..|es| - 1], es[|es| - 1];
      var alert := Step(cfg, sqrt, After(cfg, sqrt, front), e).1;
      Alerts(cfg, sqrt, front) + if alert.Some? then [alert.value] else []
  }

  // ---------- what the statistics of one operation are ----------

  predicate IsSample(e: Event, key: OperationKey) {
    e.Recorded? && e.span.Some? && e.span.value.key == key && e.span.value.durationMs > 0.0
  }

  /** The time of the last sample of this operation; an hour later a cleanup forgets the operation. */
  function LastSample(es: seq<Event>, key: OperationKey): Option<int> {
    if es == [] then None
    else if IsSample(es[|es| - 1], key) then Some(es[|es| - 1].at)
    else LastSample(es[..|es| - 1], key)
  }

  /** The durations of this operation since it was last forgotten. */
  function Remembered(es: seq<Event>, key: OperationKey): seq<real> {
    if es == [] then []
    else
      var front, e := es[..|es| - 1], es[|es| - 1];
      var xs := Remembered(front, key);
      if IsSample(e, key) then xs + [e.span.value.durationMs]
      else if e.StatsCleaned? && LastSample(front, key).Some? && LastSample(front, key).value < e.at - 3600 * SECOND then []
      else xs
  }

  lemma RecordTouches(cfg: Config, sqrt: Sqrt, s: State, span: Option<Span>, at: int, key: OperationKey)
    ensures var s' := RecordSpan(cfg, sqrt, s, span, at).0;
            if IsSample(Recorded(span, at), key) then
              key in s'.stats && s'.stats[key] == Entry(Update(cfg, sqrt, StatsOf(s, key), span.value.durationMs), at)
            else
              (key in s'.stats <==> key in s.stats) && (key in s.stats ==> s'.stats[key] == s.stats[key])
  {
    hide Update, Exceeds, AlertFor, KeyOf, Cool;
  }

  /** At any time, the statistics of an operation are those of exactly the durations remembered: no other
      operation's spans have any influence. */
  lemma {:induction false} StatsAreOfRemembered(cfg: Config, sqrt: Sqrt, es: seq<Event>, key: OperationKey)
    ensures var s, xs := After(cfg, sqrt, es), Remembered(es, key);
            && Positive(xs)
            && (key in s.stats <==> xs != [])
            && StatsOf(s, key) == Run(cfg, sqrt, xs)
            && (key in s.stats ==> LastSample(es, key) == Some(s.stats[key].lastUpdate))
  {
    hide RecordSpan, Update, Run;
    if es != [] {
      var front, e := es[..|es| - 1], es[|es| - 1];
      StatsAreOfRemembered(cfg, sqrt, front, key);
      if e.Recorded? {
        RecordTouches(cfg, sqrt, After(cfg, sqrt, front), e.span, e.at, key);
        if IsSample(e, key) {
          RunSnoc(cfg, sqrt, Remembered(front, key), e.span.value.durationMs);
        }
      } else if Remembered(es, key) == [] {
        RunEmpty(cfg, sqrt);
      }
    } else {
      RunEmpty(cfg, sqrt);
    }
  }

  lemma RunEmpty(cfg: Config, sqrt: Sqrt)
    ensures Run(cfg, sqrt, []) == NO_STATS
  {
  }

  // ---------- which spans are alerted on ----------

  predicate Usable(cfg: Config) {
    0.0 <= cfg.alpha <= 1.0 && cfg.deviationThreshold >= 0.0
  }

  lemma AlertMeansExceeds(cfg: Config, sqrt: Sqrt, s: State, span: Option<Span>, at: int)
    ensures var alert := RecordSpan(cfg, sqrt, s, span, at).1;
            alert.Some? <==>
            && span.Some? && span.value.durationMs > 0.0
            && var st := Update(cfg, sqrt, StatsOf(s, span.value.key), span.value.durationMs);
               Exceeds(cfg, sqrt, st, span.value.durationMs) &&
               Cool(cfg, s.cooldown, KeyOf(AlertFor(cfg, sqrt, st, span.value, at)), at)
  {
    hide Update, Exceeds, AlertFor, KeyOf, Cool;
  }

  /** In any run, a span is alerted on exactly when its alert is not cooling down and its duration stands
      out from the remembered ones, measured on them alone. */
  lemma {:induction false} AlertedIff(cfg: Config, sqrt: Sqrt, es: seq<Event>, span: Span, at: int)
    requires IsSqrt(sqrt) && Usable(cfg) && span.durationMs > 0.0
    ensures var s, xs, x := After(cfg, sqrt, es), Remembered(es, span.key), span.durationMs;
            var st, k := Run(cfg, sqrt, xs), cfg.deviationThreshold;
            var d := x - st.ewma;
            RecordSpan(cfg, sqrt, s, Some(span), at).1.Some? <==>
            && xs != [] && |xs| + 1 >= Needed(cfg)
            && d > 0.0 && d * d * (1.0 - cfg.alpha - k * k * cfg.alpha) > k * k * st.ewmaVar
            && Cool(cfg, s.cooldown, KeyOf(AlertFor(cfg, sqrt, Run(cfg, sqrt, xs + [x]), span, at)), at)
  {
    hide RecordSpan, Update, Run, Exceeds, Cool, KeyOf, AlertFor, After, Remembered;
    var s, xs, x := After(cfg, sqrt, es), Remembered(es, span.key), span.durationMs;
    StatsAreOfRemembered(cfg, sqrt, es, span.key);
    AlertMeansExceeds(cfg, sqrt, s, Some(span), at);
    RunSnoc(cfg, sqrt, xs, x);
    if xs == [] {
      assert xs + [x] == [x];
      FirstSampleNeverExceeds(cfg, sqrt, x);
    } else {
      AlertIff(cfg, sqrt, xs, x);
    }
  }

  /** A configuration with alpha (1 + k^2) >= 1 never raises an alert, whatever happens. */
  lemma {:induction false} NoAlertEver(cfg: Config, sqrt: Sqrt, es: seq<Event>)
    requires IsSqrt(sqrt) && Usable(cfg)
    requires cfg.alpha * (1.0 + cfg.deviationThreshold * cfg.deviationThreshold) >= 1.0
    ensures Alerts(cfg, sqrt, es) == []
  {
    hide RecordSpan, Update, Run, Exceeds, Cool, KeyOf, AlertFor, After, Remembered;
    if es != [] {
      var front, e := es[..|es| - 1], es[|es| - 1];
      NoAlertEver(cfg, sqrt, front);
      if e.Recorded? {
        AlertMeansExceeds(cfg, sqrt, After(cfg, sqrt, front), e.span, e.at);
        if e.span.Some? && e.span.value.durationMs > 0.0 {
          var key, x := e.span.value.key, e.span.value.durationMs;
          StatsAreOfRemembered(cfg, sqrt, front, key);
          RunSnoc(cfg, sqrt, Remembered(front, key), x);
          NeverExceeds(cfg, sqrt, Remembered(front, key), x);
        }
      }
    }
  }

  /** The default configuration is such a one. */
  lemma DefaultsNeverAlert(sqrt: Sqrt, es: seq<Event>)
    requires IsSqrt(sqrt)
    ensures Alerts(DEFAULTS, sqrt, es) == []
  {
    hide Alerts;
    assert 0.2 * (1.0 + 3.0 * 3.0) == 2.0;
    NoAlertEver(DEFAULTS, sqrt, es);
  }

  /** Once enough samples are remembered, a span that is alerted on was an anomaly before it was recorded. */
  lemma {:induction false} AlertedWasAnomaly(cfg: Config, sqrt: Sqrt, es: seq<Event>, span: Span, at: int)
    requires IsSqrt(sqrt) && Usable(cfg)
    ensures var s, xs := After(cfg, sqrt, es), Remembered(es, span.key);
            xs != [] && |xs| >= Needed(cfg) && RecordSpan(cfg, sqrt, s, Some(span), at).1.Some? ==>
              IsAnomaly(cfg, sqrt, s, Some(span))
  {
    hide RecordSpan, Update, Run, Exceeds, Cool, KeyOf, AlertFor, After, Remembered;
    var s, xs, x := After(cfg, sqrt, es), Remembered(es, span.key), span.durationMs;
    AlertMeansExceeds(cfg, sqrt, s, Some(span), at);
    StatsAreOfRemembered(cfg, sqrt, es, span.key);
    if xs != [] && |xs| >= Needed(cfg) && RecordSpan(cfg, sqrt, s, Some(span), at).1.Some? {
      RunSnoc(cfg, sqrt, xs, x);
      ExceededBefore(cfg, sqrt, xs, x);
    }
  }

  // ---------- the cooldown ----------

  predicate Forward(es: seq<Event>) {
    forall i, j :: 0 <= i < j < |es| ==> es[i].at <= es[j].at
  }

  /** Alerts under one key keep this distance: the configured one, but no more than the ten minutes after
      which the cleanup forgets when the last alert was. */
  function Distance(cfg: Config): int {
    (if cfg.cooldownSeconds < 600 then cfg.cooldownSeconds else 600) * SECOND
  }

  predicate ApartBy(distance: int, alerts: seq<Alert>) {
    forall i, j :: 0 <= i < j < |alerts| && KeyOf(alerts[i]) == KeyOf(alerts[j]) ==>
      alerts[j].time - alerts[i].time > distance
  }

  predicate Apart(cfg: Config, alerts: seq<Alert>) { ApartBy(Distance(cfg), alerts) }

  /** Every alert so far is still in the cooldown table, under a time not before it, or long ago. */
  predicate Tracked(cfg: Config, s: State, alerts: seq<Alert>, now: int) {
    forall i :: 0 <= i < |alerts| ==>
      var key := KeyOf(alerts[i]);
      now - alerts[i].time > 600 * SECOND || (key in s.cooldown && s.cooldown[key] >= alerts[i].time)
  }

  predicate Past(alerts: seq<Alert>, now: int) {
    forall i :: 0 <= i < |alerts| ==> alerts[i].time <= now
  }

  lemma RecordCooldown(cfg: Config, sqrt: Sqrt, s: State, span: Option<Span>, at: int)
    ensures var (s', alert) := RecordSpan(cfg, sqrt, s, span, at);
            if alert.None? then s'.cooldown == s.cooldown
            else
              && alert.value.time == at && Cool(cfg, s.cooldown, KeyOf(alert.value), at)
              && s'.cooldown == s.cooldown[KeyOf(alert.value) := at]
  {
    hide Update, Exceeds, KeyOf, Cool;
  }

  lemma AlertStep(cfg: Config, s: State, s': State, alerts: seq<Alert>, alert: Alert, now: int)
    requires Apart(cfg, alerts) && Tracked(cfg, s, alerts, now)
    requires Past(alerts, now)
    requires alert.time == now && Cool(cfg, s.cooldown, KeyOf(alert), now)
    requires s'.cooldown == s.cooldown[KeyOf(alert) := now]
    ensures Apart(cfg, alerts + [alert]) && Tracked(cfg, s', alerts + [alert], now) && Past(alerts + [alert], now)
  {
    hide KeyOf;
  }

  lemma TrackStep(cfg: Config, sqrt: Sqrt, s: State, e: Event, alerts: seq<Alert>) returns (alerts': seq<Alert>)
    requires Apart(cfg, alerts) && Tracked(cfg, s, alerts, e.at) && Past(alerts, e.at)
    ensures var (s', alert) := Step(cfg, sqrt, s, e);
            && alerts' == alerts + (if alert.Some? then [alert.value] else [])
            && Apart(cfg, alerts') && Tracked(cfg, s', alerts', e.at) && Past(alerts', e.at)
  {
    hide RecordSpan, KeyOf, Cool, Apart;
    var (s', alert) := Step(cfg, sqrt, s, e);
    alerts' := alerts;
    if e.Recorded? {
      RecordCooldown(cfg, sqrt, s, e.span, e.at);
      if alert.Some? {
        alerts' := alerts + [alert.value];
        AlertStep(cfg, s, s', alerts, alert.value, e.at);
      }
    }
  }

  lemma TrackedLater(cfg: Config, s: State, alerts: seq<Alert>, now: int, later: int)
    requires Tracked(cfg, s, alerts, now) && Past(alerts, now) && now <= later
    ensures Tracked(cfg, s, alerts, later) && Past(alerts, later)
  {
  }

  lemma {:induction false} CooldownTracks(cfg: Config, sqrt: Sqrt, es: seq<Event>, now: int)
    requires Forward(es) && forall i :: 0 <= i < |es| ==> es[i].at <= now
    ensures var s, alerts := After(cfg, sqrt, es), Alerts(cfg, sqrt, es);
            Apart(cfg, alerts) && Tracked(cfg, s, alerts, now) && Past(alerts, now)
  {
    hide Step, Apart, Tracked, Past;
    if es == [] {
      NoneApart(cfg, FRESH, now);
    } else {
      var front, e := es[..|es| - 1], es[|es| - 1];
      CooldownTracks(cfg, sqrt, front, e.at);
      var alerts' := TrackStep(cfg, sqrt, After(cfg, sqrt, front), e, Alerts(cfg, sqrt, front));
      assert alerts' == Alerts(cfg, sqrt, es);
      TrackedLater(cfg, After(cfg, sqrt, es), alerts', e.at, now);
    }
  }

  lemma NoneApart(cfg: Config, s: State, now: int)
    ensures Apart(cfg, []) && Tracked(cfg, s, [], now) && Past([], now)
  {
  }

  /** With a clock that does not go back, two alerts under one key are always more than the distance apart. */
  lemma {:induction false} AlertsKeepDistance(cfg: Config, sqrt: Sqrt, es: seq<Event>)
    requires Forward(es)
    ensures Apart(cfg, Alerts(cfg, sqrt, es))
  {
    hide After, Alerts, Apart, Tracked;
    if es == [] {
      CooldownTracks(cfg, sqrt, es, 0);
    } else {
      CooldownTracks(cfg, sqrt, es, es[|es| - 1].at);
    }
  }
}
