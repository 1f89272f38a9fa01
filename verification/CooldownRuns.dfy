/** Exactly when the configured cooldown is kept: the cleanup forgets after ten minutes when an alert was sent. */
module CooldownRuns {
  import opened Options
  import opened RealAlgebra
  import opened AnomalyModel
  import opened AnomalyLaws
  import opened AnomalyRuns

  // ---------- two operations with one alert key ----------

  const ONE_KEY := OperationKey("a:b", "c", "p")
  const OTHER_KEY := OperationKey("a", "b:c", "p")

  function Call(key: OperationKey, durationMs: real, at: int): Event {
    Recorded(Some(Span(key, "", "", durationMs)), at)
  }

  function Ones(n: nat): seq<real> { seq(n, _ => 1.0) }

  lemma SameAlertKey(severity: string)
    ensures AlertKey(ONE_KEY, severity) == AlertKey(OTHER_KEY, severity)
  {
    assert "a:b" + ":" + "c" == "a:b:c" == "a" + ":" + "b:c";
  }

  // ---------- one more event ----------

  lemma AfterSnoc(cfg: Config, sqrt: Sqrt, es: seq<Event>, e: Event)
    ensures After(cfg, sqrt, es + [e]) == Step(cfg, sqrt, After(cfg, sqrt, es), e).0
    ensures var alert := Step(cfg, sqrt, After(cfg, sqrt, es), e).1;
            Alerts(cfg, sqrt, es + [e]) == Alerts(cfg, sqrt, es) + if alert.Some? then [alert.value] else []
  {
    hide Step;
    assert (es + [e])[..|es|] == es;
  }

  lemma RememberedCall(es: seq<Event>, key: OperationKey, x: real, at: int, other: OperationKey)
    requires x > 0.0
    ensures Remembered(es + [Call(key, x, at)], other) ==
            if other == key then Remembered(es, other) + [x] else Remembered(es, other)
  {
    var e := Call(key, x, at);
    assert (es + [e])[..|es|] == es;
  }

  lemma RememberedCleanup(es: seq<Event>, at: int, key: OperationKey)
    ensures Remembered(es + [CooldownCleaned(at)], key) == Remembered(es, key)
  {
    assert (es + [CooldownCleaned(at)])[..|es|] == es;
  }

  /** Equal durations raise no alert. */
  lemma EqualCallQuiet(cfg: Config, sqrt: Sqrt, es: seq<Event>, key: OperationKey, m: nat, at: int)
    requires IsSqrt(sqrt) && Usable(cfg) && Remembered(es, key) == Ones(m)
    ensures var es' := es + [Call(key, 1.0, at)];
            Alerts(cfg, sqrt, es') == Alerts(cfg, sqrt, es) && After(cfg, sqrt, es').cooldown == After(cfg, sqrt, es).cooldown
  {
    hide After, Alerts, RecordSpan, Run, Cool, KeyOf, AlertFor, Remembered;
    var span := Span(key, "", "", 1.0);
    AfterSnoc(cfg, sqrt, es, Call(key, 1.0, at));
    AlertedIff(cfg, sqrt, es, span, at);
    if m > 0 {
      ConstantRun(cfg, sqrt, m);
    }
    RecordCooldown(cfg, sqrt, After(cfg, sqrt, es), Some(span), at);
    assert Alerts(cfg, sqrt, es) + [] == Alerts(cfg, sqrt, es);
  }

  // ---------- the run ----------

  /** m equal calls of both operations. */
  function Steady(m: nat): seq<Event> {
    if m == 0 then [] else Steady(m - 1) + [Call(ONE_KEY, 1.0, 0)] + [Call(OTHER_KEY, 1.0, 0)]
  }

  /** After some calls of either operation, all alike, no alert was raised. */
  ghost predicate Quiet(cfg: Config, sqrt: Sqrt, es: seq<Event>, first: nat, second: nat) {
    && Remembered(es, ONE_KEY) == Ones(first) && Remembered(es, OTHER_KEY) == Ones(second)
    && Alerts(cfg, sqrt, es) == [] && After(cfg, sqrt, es).cooldown == map[]
    && forall e <- es :: e.at == 0
  }

  lemma QuietCall(cfg: Config, sqrt: Sqrt, es: seq<Event>, first: nat, second: nat, key: OperationKey)
    requires IsSqrt(sqrt) && Usable(cfg) && Quiet(cfg, sqrt, es, first, second) && (key == ONE_KEY || key == OTHER_KEY)
    ensures Quiet(cfg, sqrt, es + [Call(key, 1.0, 0)], if key == ONE_KEY then first + 1 else first,
                  if key == ONE_KEY then second else second + 1)
  {
    hide After, Alerts, Remembered, Usable, IsSqrt;
    RememberedCall(es, key, 1.0, 0, ONE_KEY);
    RememberedCall(es, key, 1.0, 0, OTHER_KEY);
    EqualCallQuiet(cfg, sqrt, es, key, if key == ONE_KEY then first else second, 0);
    assert Ones(first + 1) == Ones(first) + [1.0] && Ones(second + 1) == Ones(second) + [1.0];
  }

  lemma NothingYet(cfg: Config, sqrt: Sqrt)
    ensures Quiet(cfg, sqrt, [], 0, 0)
  {
  }

  lemma {:induction false} SteadyIsQuiet(cfg: Config, sqrt: Sqrt, m: nat)
    requires IsSqrt(sqrt) && Usable(cfg)
    ensures Quiet(cfg, sqrt, Steady(m), m, m)
  {
    hide Quiet, Usable, IsSqrt;
    if m == 0 {
      NothingYet(cfg, sqrt);
    } else {
      SteadyIsQuiet(cfg, sqrt, m - 1);
      QuietCall(cfg, sqrt, Steady(m - 1), m - 1, m - 1, ONE_KEY);
      QuietCall(cfg, sqrt, Steady(m - 1) + [Call(ONE_KEY, 1.0, 0)], m, m - 1, OTHER_KEY);
    }
  }

  /** The alert that a call of twice the usual duration raises. */
  function SpikeAlert(cfg: Config, sqrt: Sqrt, n: nat, key: OperationKey, at: int): Alert {
    AlertFor(cfg, sqrt, Run(cfg, sqrt, Ones(n) + [2.0]), Span(key, "", "", 2.0), at)
  }

  lemma SpikeKeys(cfg: Config, sqrt: Sqrt, n: nat, at: int, later: int)
    ensures KeyOf(SpikeAlert(cfg, sqrt, n, ONE_KEY, at)) == KeyOf(SpikeAlert(cfg, sqrt, n, OTHER_KEY, later))
    ensures SpikeAlert(cfg, sqrt, n, ONE_KEY, at).time == at && SpikeAlert(cfg, sqrt, n, OTHER_KEY, later).time == later
  {
    hide Run, Severity;
    SameAlertKey(Severity(Deviation(Run(cfg, sqrt, Ones(n) + [2.0]), 2.0)));
  }

  lemma AlertIs(cfg: Config, sqrt: Sqrt, s: State, span: Span, at: int)
    requires RecordSpan(cfg, sqrt, s, Some(span), at).1.Some?
    ensures RecordSpan(cfg, sqrt, s, Some(span), at).1.value ==
            AlertFor(cfg, sqrt, Update(cfg, sqrt, StatsOf(s, span.key), span.durationMs), span, at)
  {
    hide Update, Exceeds, AlertFor, KeyOf, Cool;
  }

  lemma SpikeAlerts(cfg: Config, sqrt: Sqrt, es: seq<Event>, key: OperationKey, n: nat, at: int)
    requires IsSqrt(sqrt) && Usable(cfg)
    requires cfg.alpha * (1.0 + cfg.deviationThreshold * cfg.deviationThreshold) < 1.0
    requires n >= 1 && n >= Needed(cfg) && Remembered(es, key) == Ones(n) && After(cfg, sqrt, es).cooldown == map[]
    ensures var es', alert := es + [Call(key, 2.0, at)], SpikeAlert(cfg, sqrt, n, key, at);
            && Alerts(cfg, sqrt, es') == Alerts(cfg, sqrt, es) + [alert]
            && After(cfg, sqrt, es').cooldown == map[KeyOf(alert) := at]
  {
    hide After, Alerts, RecordSpan, Run, KeyOf, AlertFor, Remembered, Update;
    var span, s := Span(key, "", "", 2.0), After(cfg, sqrt, es);
    AfterSnoc(cfg, sqrt, es, Call(key, 2.0, at));
    AlertedIff(cfg, sqrt, es, span, at);
    ConstantRun(cfg, sqrt, n);
    var a, k := cfg.alpha, cfg.deviationThreshold;
    Distribute(a, 1.0, k * k);
    assert a * (k * k) == k * k * a;
    assert RecordSpan(cfg, sqrt, s, Some(span), at).1.Some?;
    AlertIs(cfg, sqrt, s, span, at);
    StatsAreOfRemembered(cfg, sqrt, es, key);
    RunSnoc(cfg, sqrt, Ones(n), 2.0);
    RecordCooldown(cfg, sqrt, s, Some(span), at);
  }

  const LATER := 600 * SECOND + 1

  /** Equal calls, a longer one, the cleanup ten minutes later, and a longer one of the other operation. */
  function TwoSpikes(n: nat): seq<Event> {
    Steady(n) + [Call(ONE_KEY, 2.0, 0)] + [CooldownCleaned(LATER)] + [Call(OTHER_KEY, 2.0, LATER)]
  }

  lemma CleanupForgets(cfg: Config, sqrt: Sqrt, es: seq<Event>, alertKey: string)
    requires After(cfg, sqrt, es).cooldown == map[alertKey := 0]
    ensures var es' := es + [CooldownCleaned(LATER)];
            Alerts(cfg, sqrt, es') == Alerts(cfg, sqrt, es) && After(cfg, sqrt, es').cooldown == map[]
  {
    hide After, Alerts;
    AfterSnoc(cfg, sqrt, es, CooldownCleaned(LATER));
    assert Alerts(cfg, sqrt, es) + [] == Alerts(cfg, sqrt, es);
  }

  lemma SpikesTooClose(cfg: Config, sqrt: Sqrt, n: nat)
    requires IsSqrt(sqrt) && Usable(cfg)
    requires cfg.alpha * (1.0 + cfg.deviationThreshold * cfg.deviationThreshold) < 1.0
    requires n >= 1 && n >= Needed(cfg)
    ensures Forward(TwoSpikes(n))
    ensures Alerts(cfg, sqrt, TwoSpikes(n)) == [SpikeAlert(cfg, sqrt, n, ONE_KEY, 0), SpikeAlert(cfg, sqrt, n, OTHER_KEY, LATER)]
  {
    hide After, Alerts, Remembered, SpikeAlert;
    var es := Steady(n);
    SteadyIsQuiet(cfg, sqrt, n);
    var es1 := es + [Call(ONE_KEY, 2.0, 0)];
    SpikeAlerts(cfg, sqrt, es, ONE_KEY, n, 0);
    RememberedCall(es, ONE_KEY, 2.0, 0, OTHER_KEY);
    var es2 := es1 + [CooldownCleaned(LATER)];
    CleanupForgets(cfg, sqrt, es1, KeyOf(SpikeAlert(cfg, sqrt, n, ONE_KEY, 0)));
    RememberedCleanup(es1, LATER, OTHER_KEY);
    SpikeAlerts(cfg, sqrt, es2, OTHER_KEY, n, LATER);
    forall i | 0 <= i < |TwoSpikes(n)|
      ensures TwoSpikes(n)[i].at == if i <= |es| then 0 else LATER
    {
      assert i < |es| ==> TwoSpikes(n)[i] == es[i] && es[i] in es;
    }
  }

  /** Alerts under one key are always more than the cooldown apart, in every run with a clock that does not go back,
      exactly if the cooldown is at most ten minutes, or no alert can be raised at all. */
  lemma CooldownKeptIff(cfg: Config, sqrt: Sqrt)
    requires IsSqrt(sqrt) && Usable(cfg)
    ensures (forall es :: Forward(es) ==> ApartBy(cfg.cooldownSeconds * SECOND, Alerts(cfg, sqrt, es))) <==>
            cfg.cooldownSeconds <= 600 || cfg.alpha * (1.0 + cfg.deviationThreshold * cfg.deviationThreshold) >= 1.0
  {
    hide Alerts, Forward, SpikeAlert, TwoSpikes, Needed, ApartBy;
    if cfg.cooldownSeconds <= 600 {
      forall es | Forward(es)
        ensures ApartBy(cfg.cooldownSeconds * SECOND, Alerts(cfg, sqrt, es))
      {
        AlertsKeepDistance(cfg, sqrt, es);
        ShortDistance(cfg);
      }
    } else if cfg.alpha * (1.0 + cfg.deviationThreshold * cfg.deviationThreshold) >= 1.0 {
      forall es | Forward(es)
        ensures ApartBy(cfg.cooldownSeconds * SECOND, Alerts(cfg, sqrt, es))
      {
        NoAlertEver(cfg, sqrt, es);
        NothingClose(cfg.cooldownSeconds * SECOND);
      }
    } else {
      var n: nat := if Needed(cfg) > 1 then Needed(cfg) else 1;
      SpikesTooClose(cfg, sqrt, n);
      SpikeKeys(cfg, sqrt, n, 0, LATER);
      TooClose(cfg, SpikeAlert(cfg, sqrt, n, ONE_KEY, 0), SpikeAlert(cfg, sqrt, n, OTHER_KEY, LATER));
    }
  }

  lemma NothingClose(distance: int)
    ensures ApartBy(distance, [])
  {
  }

  lemma ShortDistance(cfg: Config)
    requires cfg.cooldownSeconds <= 600
    ensures Distance(cfg) == cfg.cooldownSeconds * SECOND
  {
  }

  lemma TooClose(cfg: Config, a: Alert, b: Alert)
    requires cfg.cooldownSeconds > 600 && KeyOf(a) == KeyOf(b) && b.time - a.time == LATER
    ensures !ApartBy(cfg.cooldownSeconds * SECOND, [a, b])
  {
    hide KeyOf;
    assert [a, b][0] == a && [a, b][1] == b;
  }
}
