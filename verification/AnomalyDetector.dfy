/** The detector as the program has it: one record of statistics per operation, updated in place. Every
    operation is proved to do what AnomalyModel says. */
module AnomalyDetector {
  import opened Options
  import opened AnomalyModel

  class LatencyStats {
    var count: nat
    var sum: real
    var sumSq: real
    var ewma: real
    var ewmaVar: real
    var mean: real
    var stdDev: real
    var lastUpdate: int

    ghost function Model(): Stats
      reads this
    {
      Stats(count, sum, sumSq, ewma, ewmaVar, mean, stdDev)
    }

    ghost function Value(): Entry
      reads this
    {
      Entry(Model(), lastUpdate)
    }

    constructor (now: int)
      ensures Value() == Entry(NO_STATS, now)
    {
      count, sum, sumSq := 0, 0.0, 0.0;
      ewma, ewmaVar, mean, stdDev := 0.0, 0.0, 0.0, 0.0;
      lastUpdate := now;
    }

    method Add(cfg: Config, sqrt: Sqrt, x: real, now: int)
      modifies this
      ensures Value() == Entry(Update(cfg, sqrt, old(Model()), x), now)
    {
      hide Smoothed, Spread;
      count := count + 1;
      sum := sum + x;
      sumSq := sumSq + x * x;
      lastUpdate := now;
      assert Model() == Counted(old(Model()), x);
      Smooth(cfg, x);
      Disperse(sqrt);
    }

    method Disperse(sqrt: Sqrt)
      requires count > 0
      modifies this
      ensures Model() == Spread(sqrt, old(Model())) && lastUpdate == old(lastUpdate)
    {
      ghost var before := Model();
      mean := sum / count as real;
      if count > 1 {
        var squares := sumSq - sum * sum / count as real;
        assert squares == SquaresAboutMean(before);
        var variance := squares / (count - 1) as real;
        assert variance == Variance(before);
        stdDev := sqrt(Max(0.0, variance));
      }
    }

    method Smooth(cfg: Config, x: real)
      modifies this
      ensures Model() == Smoothed(cfg, old(Model()), x) && lastUpdate == old(lastUpdate) && count == old(count)
    {
      if ewma == 0.0 {
        ewma := x;
        ewmaVar := 0.0;
      } else {
        var diff := x - ewma;
        ewma := ewma + cfg.alpha * diff;
        ewmaVar := (1.0 - cfg.alpha) * (ewmaVar + cfg.alpha * diff * diff);
      }
    }

    method IsExceededBy(cfg: Config, sqrt: Sqrt, x: real) returns (r: bool)
      ensures r == Exceeds(cfg, sqrt, Model(), x)
    {
      if count < Needed(cfg) || ewmaVar < 0.0 {
        return false;
      }
      var threshold := ewma + cfg.deviationThreshold * sqrt(ewmaVar);
      return x > threshold;
    }

    method AlertOn(cfg: Config, sqrt: Sqrt, span: Span, now: int) returns (alert: Alert)
      ensures alert == AlertFor(cfg, sqrt, Model(), span, now) && alert.span == span
    {
      var deviation := None;
      if ewma != 0.0 {
        deviation := Some((span.durationMs - ewma) / ewma * 100.0);
      }
      var severity := "warning";
      if deviation.None? || deviation.value > 500.0 {
        severity := "critical";
      } else if deviation.value > 200.0 {
        severity := "error";
      }
      alert := Alert(span, now, severity, ewma + cfg.deviationThreshold * sqrt(ewmaVar), deviation);
    }
  }

  class Detector {
    const cfg: Config
    var stats: map<OperationKey, LatencyStats>
    var cooldown: map<string, int>

    /** No two operations share a record. */
    ghost predicate Valid()
      reads this
    {
      forall j, k :: j in stats && k in stats && j != k ==> stats[j] != stats[k]
    }

    ghost function Model(): State
      reads this, stats.Values
    {
      State(map k | k in stats :: stats[k].Value(), cooldown)
    }

    constructor (cfg: Config)
      ensures Valid() && Model() == FRESH && this.cfg == cfg
    {
      this.cfg := cfg;
      stats := map[];
      cooldown := map[];
    }

    method ShouldSend(key: OperationKey, severity: string, now: int) returns (send: bool)
      requires Valid()
      modifies this`cooldown
      ensures Valid() && (Model(), send) == AnomalyModel.ShouldSend(cfg, old(Model()), AlertKey(key, severity), now)
    {
      var alertKey := AlertKey(key, severity);
      if alertKey !in cooldown || now - cooldown[alertKey] > cfg.cooldownSeconds * SECOND {
        cooldown := cooldown[alertKey := now];
        assert Model().stats == old(Model()).stats;
        return true;
      }
      return false;
    }

    /** The record of this operation, which there is afterwards. */
    method GetOrCreate(key: OperationKey, now: int) returns (st: LatencyStats)
      requires Valid()
      modifies this`stats
      ensures Valid() && key in stats && stats[key] == st
      ensures stats == old(stats)[key := st]
      ensures if key in old(stats) then st == old(stats)[key] else fresh(st)
      ensures st.Model() == StatsOf(old(Model()), key)
    {
      if key in stats {
        st := stats[key];
      } else {
        st := new LatencyStats(now);
        stats := stats[key := st];
      }
    }

    method AddTo(sqrt: Sqrt, key: OperationKey, x: real, now: int) returns (st: LatencyStats)
      requires Valid()
      modifies this`stats, stats.Values
      ensures Valid() && key in stats && stats[key] == st
      ensures var before := old(Model());
              && st.Model() == Update(cfg, sqrt, StatsOf(before, key), x)
              && Model() == before.(stats := before.stats[key := Entry(st.Model(), now)])
      ensures forall k :: k in stats && k !in old(stats) ==> fresh(stats[k])
    {
      hide Update;
      ghost var before := Model();
      st := GetOrCreate(key, now);
      st.Add(cfg, sqrt, x, now);
      OnlyEntryChanged(before, Model(), key, Entry(st.Model(), now));
    }

    method RecordSpan(sqrt: Sqrt, span: Option<Span>, now: int) returns (alert: Option<Alert>)
      requires Valid()
      modifies this, stats.Values
      ensures Valid() && (Model(), alert) == AnomalyModel.RecordSpan(cfg, sqrt, old(Model()), span, now)
      ensures forall k :: k in stats && k !in old(stats) ==> fresh(stats[k])
    {
      hide Update, Exceeds, AlertFor, AlertKey, Cool;
      if span.None? || span.value.durationMs <= 0.0 {
        return None;
      }
      var key, x := span.value.key, span.value.durationMs;
      var st := AddTo(sqrt, key, x, now);
      var exceeds := st.IsExceededBy(cfg, sqrt, x);
      if exceeds {
        var a := st.AlertOn(cfg, sqrt, span.value, now);
        var send := ShouldSend(key, a.severity, now);
        if send {
          return Some(a);
        }
      }
      return None;
    }

    method IsAnomaly(sqrt: Sqrt, span: Option<Span>) returns (r: bool)
      requires Valid()
      ensures r == AnomalyModel.IsAnomaly(cfg, sqrt, Model(), span)
    {
      if span.None? || span.value.durationMs <= 0.0 || span.value.key !in stats {
        return false;
      }
      r := stats[span.value.key].IsExceededBy(cfg, sqrt, span.value.durationMs);
    }

    method CleanupOldStats(now: int)
      requires Valid()
      modifies this`stats
      ensures Valid() && Model() == CleanupStats(old(Model()), now)
    {
      hide CleanupStats;
      var keys, cutoff := stats.Keys, now - 3600 * SECOND;
      while keys != {}
        invariant keys <= stats.Keys <= old(stats).Keys
        invariant forall k :: k in stats ==> stats[k] == old(stats)[k]
        invariant forall k :: k in old(stats) && k !in keys ==> (k in stats <==> old(stats)[k].lastUpdate >= cutoff)
      {
        var key :| key in keys;
        keys := keys - {key};
        if stats[key].lastUpdate < cutoff {
          stats := stats - {key};
        }
      }
      CleanupStatsIs(old(Model()), Model(), now);
    }

    method CleanupOldCooldown(now: int)
      requires Valid()
      modifies this`cooldown
      ensures Valid() && Model() == CleanupCooldown(old(Model()), now)
    {
      var keys, cutoff := cooldown.Keys, now - 600 * SECOND;
      while keys != {}
        invariant keys <= cooldown.Keys <= old(cooldown).Keys
        invariant forall k :: k in cooldown ==> cooldown[k] == old(cooldown)[k]
        invariant forall k :: k in old(cooldown) && k !in keys ==> (k in cooldown <==> old(cooldown)[k] >= cutoff)
      {
        var key :| key in keys;
        keys := keys - {key};
        if cooldown[key] < cutoff {
          cooldown := cooldown - {key};
        }
      }
    }
  }
}
