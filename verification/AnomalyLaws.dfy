/** What the statistics of any sequence of positive durations are, and exactly when one is alerted on. */
module AnomalyLaws {
  import opened RealAlgebra
  import opened AnomalyModel

  // ---------- exponential weights ----------

  function Pow(b: real, n: nat): real {
    if n == 0 then 1.0 else b * Pow(b, n - 1)
  }

  /** The weight of sample i among n: each later sample takes the share alpha of what was there. */
  function Weight(alpha: real, n: nat, i: nat): real
    requires i < n
  {
    if i == 0 then Pow(1.0 - alpha, n - 1) else alpha * Pow(1.0 - alpha, n - 1 - i)
  }

  /** The weighted sum of f over the first k of n samples. */
  function Weighted(alpha: real, xs: seq<real>, n: nat, f: real -> real, k: nat): real
    requires k <= n && k <= |xs|
  {
    if k == 0 then 0.0 else Weighted(alpha, xs, n, f, k - 1) + Weight(alpha, n, k - 1) * f(xs[k - 1])
  }

  function WeightedAll(alpha: real, xs: seq<real>, f: real -> real): real {
    Weighted(alpha, xs, |xs|, f, |xs|)
  }

  function One(x: real): real { 1.0 }
  function Id(x: real): real { x }
  function Square(x: real): real { x * x }
  function SquareFrom(c: real): real -> real { (x: real) => (x - c) * (x - c) }

  lemma WeightShrinks(alpha: real, n: nat, i: nat)
    requires i < n
    ensures Weight(alpha, n + 1, i) == (1.0 - alpha) * Weight(alpha, n, i)
  {
    var b := 1.0 - alpha;
    if i > 0 {
      var p := Pow(b, n - 1 - i);
      assert Pow(b, n + 1 - 1 - i) == b * p;
      assert alpha * (b * p) == b * (alpha * p);
    }
  }

  lemma {:induction false} WeightsShrink(alpha: real, xs: seq<real>, ys: seq<real>, n: nat, f: real -> real, k: nat)
    requires 1 <= n && k <= n && k <= |xs| && xs <= ys
    ensures Weighted(alpha, ys, n + 1, f, k) == (1.0 - alpha) * Weighted(alpha, xs, n, f, k)
  {
    hide Weight;
    if k > 0 {
      WeightsShrink(alpha, xs, ys, n, f, k - 1);
      WeightShrinks(alpha, n, k - 1);
      ShrunkSum(1.0 - alpha, Weighted(alpha, xs, n, f, k - 1), Weight(alpha, n, k - 1), f(xs[k - 1]));
    }
  }

  lemma ShrunkSum(b: real, sum: real, w: real, y: real)
    ensures b * sum + b * w * y == b * (sum + w * y)
  {
    Distribute(b, sum, w * y);
    assert b * w * y == b * (w * y);
  }

  /** One more sample: everything before shrinks by 1 - alpha and the sample enters with alpha. */
  lemma WeightedSnoc(alpha: real, xs: seq<real>, x: real, f: real -> real)
    requires xs != []
    ensures WeightedAll(alpha, xs + [x], f) == (1.0 - alpha) * WeightedAll(alpha, xs, f) + alpha * f(x)
  {
    var n := |xs|;
    WeightsShrink(alpha, xs, xs + [x], n, f, n);
    assert Weight(alpha, n + 1, n) == alpha * Pow(1.0 - alpha, 0) == alpha;
  }

  lemma WeightedOne(alpha: real, x: real, f: real -> real)
    ensures WeightedAll(alpha, [x], f) == f(x)
  {
    assert Weighted(alpha, [x], 1, f, 1) == Weighted(alpha, [x], 1, f, 0) + Weight(alpha, 1, 0) * f(x);
  }

  lemma {:induction false} WeightsSumToOne(alpha: real, xs: seq<real>)
    requires xs != []
    ensures WeightedAll(alpha, xs, One) == 1.0
  {
    hide WeightedAll;
    var n := |xs| - 1;
    assert xs == xs[..n] + [xs[n]];
    if n == 0 {
      WeightedOne(alpha, xs[0], One);
    } else {
      WeightsSumToOne(alpha, xs[..n]);
      WeightedSnoc(alpha, xs[..n], xs[n], One);
      assert One(xs[n]) == 1.0;
      SameFactor(1.0 - alpha, WeightedAll(alpha, xs[..n], One), 1.0);
      SameFactor(alpha, One(xs[n]), 1.0);
    }
  }

  lemma Values(c: real, x: real)
    ensures IsProduct(SquareFrom(c)(x), x - c, x - c) && IsProduct(Square(x), x, x) && Id(x) == x && One(x) == 1.0
  {
  }

  lemma WeightedNext(alpha: real, xs: seq<real>, n: nat, f: real -> real, k: nat) returns (d: real)
    requires 0 < k <= n && k <= |xs|
    ensures IsProduct(d, Weight(alpha, n, k - 1), f(xs[k - 1]))
    ensures Weighted(alpha, xs, n, f, k) == Weighted(alpha, xs, n, f, k - 1) + d
  {
    d := Weight(alpha, n, k - 1) * f(xs[k - 1]);
  }

  lemma {:induction false} SpreadAround(alpha: real, xs: seq<real>, n: nat, c: real, k: nat)
    requires k <= n && k <= |xs|
    ensures SumsAround(Weighted(alpha, xs, n, SquareFrom(c), k), Weighted(alpha, xs, n, Square, k),
                       Weighted(alpha, xs, n, Id, k), Weighted(alpha, xs, n, One, k), c)
  {
    if k > 0 {
      hide Weight, Weighted, SumsAround, IsProduct, SquareFrom, Square, Id, One;
      SpreadAround(alpha, xs, n, c, k - 1);
      var x := xs[k - 1];
      Values(c, x);
      var ds := WeightedNext(alpha, xs, n, SquareFrom(c), k);
      var dq := WeightedNext(alpha, xs, n, Square, k);
      var dm := WeightedNext(alpha, xs, n, Id, k);
      var dw := WeightedNext(alpha, xs, n, One, k);
      SpreadStep(Weighted(alpha, xs, n, SquareFrom(c), k - 1), Weighted(alpha, xs, n, Square, k - 1),
                 Weighted(alpha, xs, n, Id, k - 1), Weighted(alpha, xs, n, One, k - 1),
                 Weight(alpha, n, k - 1), x, c, SquareFrom(c)(x), Square(x), ds, dq, dm, dw);
    }
  }

  lemma {:induction false} PowNonNegative(b: real, n: nat)
    requires b >= 0.0
    ensures Pow(b, n) >= 0.0
  {
    if n > 0 {
      PowNonNegative(b, n - 1);
      NonNegative(b, Pow(b, n - 1));
    }
  }

  lemma WeightNonNegative(alpha: real, n: nat, i: nat)
    requires i < n && 0.0 <= alpha <= 1.0
    ensures Weight(alpha, n, i) >= 0.0
  {
    var b := 1.0 - alpha;
    PowNonNegative(b, n - 1);
    PowNonNegative(b, n - 1 - i);
    NonNegative(alpha, Pow(b, n - 1 - i));
  }

  lemma {:induction false} SpreadNonNegative(alpha: real, xs: seq<real>, n: nat, c: real, k: nat)
    requires k <= n && k <= |xs| && 0.0 <= alpha <= 1.0
    ensures Weighted(alpha, xs, n, SquareFrom(c), k) >= 0.0
  {
    hide Weight;
    if k > 0 {
      SpreadNonNegative(alpha, xs, n, c, k - 1);
      WeightNonNegative(alpha, n, k - 1);
      SquareNonNegative(xs[k - 1] - c);
      NonNegative(Weight(alpha, n, k - 1), (xs[k - 1] - c) * (xs[k - 1] - c));
    }
  }

  // ---------- the moving average and variance ----------

  /** The moving average is the exponentially weighted mean of all samples. */
  lemma {:induction false} AverageIsWeightedMean(cfg: Config, sqrt: Sqrt, xs: seq<real>)
    requires xs != [] && Positive(xs) && 0.0 <= cfg.alpha <= 1.0
    ensures Run(cfg, sqrt, xs).ewma == WeightedAll(cfg.alpha, xs, Id)
  {
    hide Update, WeightedAll, Run;
    var n := |xs| - 1;
    var front, x := xs[..n], xs[n];
    assert xs == front + [x];
    if n == 0 {
      WeightedOne(cfg.alpha, x, Id);
      OneSample(cfg, sqrt, x);
    } else {
      AverageIsWeightedMean(cfg, sqrt, front);
      WeightedSnoc(cfg.alpha, front, x, Id);
      NextSample(cfg, sqrt, front, x);
      StepIsMix(Run(cfg, sqrt, front).ewma, cfg.alpha, x);
    }
  }

  lemma StepIsMix(m: real, a: real, x: real)
    ensures m + a * (x - m) == (1.0 - a) * m + a * x
  {
    Distribute(a, x, m);
    assert (1.0 - a) * m == m - a * m;
  }

  /** The moving variance is the weighted second moment minus the square of the average. */
  lemma {:induction false} VarianceIsMoment(cfg: Config, sqrt: Sqrt, xs: seq<real>)
    requires xs != [] && Positive(xs) && 0.0 <= cfg.alpha <= 1.0
    ensures var st := Run(cfg, sqrt, xs); st.ewmaVar == WeightedAll(cfg.alpha, xs, Square) - st.ewma * st.ewma
  {
    hide Update, WeightedAll, Run;
    var n := |xs| - 1;
    var front, x := xs[..n], xs[n];
    assert xs == front + [x];
    if n == 0 {
      WeightedOne(cfg.alpha, x, Square);
      OneSample(cfg, sqrt, x);
    } else {
      VarianceIsMoment(cfg, sqrt, front);
      WeightedSnoc(cfg.alpha, front, x, Square);
      NextSample(cfg, sqrt, front, x);
      var st := Run(cfg, sqrt, front);
      VarianceStep(cfg.alpha, st.ewma, st.ewmaVar, WeightedAll(cfg.alpha, front, Square), x);
    }
  }

  /** The moving variance is the exponentially weighted spread of all samples around the moving average. */
  lemma VarianceIsWeightedSpread(cfg: Config, sqrt: Sqrt, xs: seq<real>)
    requires xs != [] && Positive(xs) && 0.0 <= cfg.alpha <= 1.0
    ensures var st := Run(cfg, sqrt, xs);
            st.ewmaVar == WeightedAll(cfg.alpha, xs, SquareFrom(st.ewma)) && st.ewmaVar >= 0.0
  {
    hide Update, Run, Weighted;
    var m := Run(cfg, sqrt, xs).ewma;
    AverageIsWeightedMean(cfg, sqrt, xs);
    VarianceIsMoment(cfg, sqrt, xs);
    WeightsSumToOne(cfg.alpha, xs);
    SpreadAround(cfg.alpha, xs, |xs|, m, |xs|);
    assert 2.0 * m * m == 2.0 * (m * m);
    SpreadNonNegative(cfg.alpha, xs, |xs|, m, |xs|);
  }

  // ---------- the alert test ----------

  /** After the first sample, the test on the updated statistics, said on the statistics before: the
      sample exceeds the old average by d > 0 with d^2 (1 - alpha - k^2 alpha) > k^2 Var. */
  lemma {:induction false} AlertIff(cfg: Config, sqrt: Sqrt, xs: seq<real>, x: real)
    requires IsSqrt(sqrt) && 0.0 <= cfg.alpha <= 1.0 && cfg.deviationThreshold >= 0.0
    requires xs != [] && Positive(xs) && x > 0.0
    ensures var st := Run(cfg, sqrt, xs); var d, k := x - st.ewma, cfg.deviationThreshold;
            Exceeds(cfg, sqrt, Run(cfg, sqrt, xs + [x]), x) <==>
            && |xs| + 1 >= Needed(cfg)
            && d > 0.0 && d * d * (1.0 - cfg.alpha - k * k * cfg.alpha) > k * k * st.ewmaVar
  {
    hide Update, Run, WeightedAll;
    var st, st' := Run(cfg, sqrt, xs), Run(cfg, sqrt, xs + [x]);
    NextSample(cfg, sqrt, xs, x);
    VarianceIsWeightedSpread(cfg, sqrt, xs);
    VarianceIsWeightedSpread(cfg, sqrt, xs + [x]);
    var a, d, k, s := cfg.alpha, x - st.ewma, cfg.deviationThreshold, sqrt(st'.ewmaVar);
    TestOnDeviation(a, k, st.ewmaVar, d, s);
    BeyondStep(st.ewma, x, a, k * s);
  }

  lemma BeyondStep(m: real, x: real, a: real, t: real)
    ensures x > m + a * (x - m) + t <==> (1.0 - a) * (x - m) > t
  {
    var d := x - m;
    assert (1.0 - a) * d == d - a * d;
  }

  /** The first sample is its own average and never exceeds it. */
  lemma FirstSampleNeverExceeds(cfg: Config, sqrt: Sqrt, x: real)
    requires IsSqrt(sqrt) && cfg.deviationThreshold >= 0.0
    ensures !Exceeds(cfg, sqrt, Run(cfg, sqrt, [x]), x)
  {
    hide Update, Run;
    OneSample(cfg, sqrt, x);
    NonNegative(cfg.deviationThreshold, sqrt(0.0));
  }

  /** No sequence of durations can ever exceed the threshold when alpha (1 + k^2) >= 1. */
  lemma NeverExceeds(cfg: Config, sqrt: Sqrt, xs: seq<real>, x: real)
    requires IsSqrt(sqrt) && 0.0 <= cfg.alpha <= 1.0 && cfg.deviationThreshold >= 0.0
    requires cfg.alpha * (1.0 + cfg.deviationThreshold * cfg.deviationThreshold) >= 1.0
    requires Positive(xs) && x > 0.0
    ensures !Exceeds(cfg, sqrt, Run(cfg, sqrt, xs + [x]), x)
  {
    hide Update, Run, WeightedAll, Exceeds;
    if xs == [] {
      assert xs + [x] == [x];
      FirstSampleNeverExceeds(cfg, sqrt, x);
    } else {
      AlertIff(cfg, sqrt, xs, x);
      VarianceIsWeightedSpread(cfg, sqrt, xs);
      var st := Run(cfg, sqrt, xs);
      NoRoom(cfg.alpha, cfg.deviationThreshold, st.ewmaVar, x - st.ewma);
    }
  }

  lemma {:induction false} ConstantRun(cfg: Config, sqrt: Sqrt, n: nat)
    requires n > 0 && 0.0 <= cfg.alpha <= 1.0
    ensures var st := Run(cfg, sqrt, seq(n, _ => 1.0)); st.ewma == 1.0 && st.ewmaVar == 0.0
  {
    hide Update, Run;
    var xs := seq(n, _ => 1.0);
    assert xs == seq(n - 1, _ => 1.0) + [1.0];
    if n == 1 {
      OneSample(cfg, sqrt, 1.0);
      assert xs == [1.0];
    } else {
      ConstantRun(cfg, sqrt, n - 1);
      NextSample(cfg, sqrt, seq(n - 1, _ => 1.0), 1.0);
    }
  }

  /** Otherwise some sequence does: equal durations until there are enough, then a longer one. */
  lemma SomeRunExceeds(cfg: Config, sqrt: Sqrt) returns (xs: seq<real>)
    requires IsSqrt(sqrt) && 0.0 <= cfg.alpha <= 1.0 && cfg.deviationThreshold >= 0.0
    requires cfg.alpha * (1.0 + cfg.deviationThreshold * cfg.deviationThreshold) < 1.0
    ensures Positive(xs) && Exceeds(cfg, sqrt, Run(cfg, sqrt, xs + [2.0]), 2.0)
  {
    hide Update, Run, Exceeds;
    var n := if Needed(cfg) > 1 then Needed(cfg) else 1;
    xs := seq(n, _ => 1.0);
    ConstantRun(cfg, sqrt, n);
    AlertIff(cfg, sqrt, xs, 2.0);
    var a, k := cfg.alpha, cfg.deviationThreshold;
    Distribute(a, 1.0, k * k);
    assert a * (k * k) == k * k * a;
  }

  /** Exactly when a duration can exceed its threshold at all. */
  lemma AlertPossibleIff(cfg: Config, sqrt: Sqrt)
    requires IsSqrt(sqrt) && 0.0 <= cfg.alpha <= 1.0 && cfg.deviationThreshold >= 0.0
    ensures (exists xs: seq<real>, x: real :: Positive(xs) && x > 0.0 && Exceeds(cfg, sqrt, Run(cfg, sqrt, xs + [x]), x)) <==>
            cfg.alpha * (1.0 + cfg.deviationThreshold * cfg.deviationThreshold) < 1.0
  {
    hide Update, Run, Exceeds;
    if cfg.alpha * (1.0 + cfg.deviationThreshold * cfg.deviationThreshold) < 1.0 {
      var xs := SomeRunExceeds(cfg, sqrt);
    } else {
      forall xs: seq<real>, x: real | Positive(xs) && x > 0.0
        ensures !Exceeds(cfg, sqrt, Run(cfg, sqrt, xs + [x]), x)
      {
        NeverExceeds(cfg, sqrt, xs, x);
      }
    }
  }

  /** Once there were enough samples, a duration that exceeds the threshold after its update exceeded
      the threshold before it. */
  lemma {:induction false} ExceededBefore(cfg: Config, sqrt: Sqrt, xs: seq<real>, x: real)
    requires IsSqrt(sqrt) && 0.0 <= cfg.alpha <= 1.0 && cfg.deviationThreshold >= 0.0
    requires xs != [] && Positive(xs) && x > 0.0 && |xs| >= Needed(cfg)
    requires Exceeds(cfg, sqrt, Run(cfg, sqrt, xs + [x]), x)
    ensures Exceeds(cfg, sqrt, Run(cfg, sqrt, xs), x)
  {
    hide Update, Run, WeightedAll, Exceeds;
    var st := Run(cfg, sqrt, xs);
    assert st.count >= Needed(cfg);
    AlertIff(cfg, sqrt, xs, x);
    VarianceIsWeightedSpread(cfg, sqrt, xs);
    TestBefore(cfg.alpha, cfg.deviationThreshold, st.ewmaVar, x - st.ewma, sqrt(st.ewmaVar));
    ExceedsIf(cfg, sqrt, st, x);
  }

  lemma ExceedsIf(cfg: Config, sqrt: Sqrt, st: Stats, x: real)
    requires st.count >= Needed(cfg) && st.ewmaVar >= 0.0
    requires x - st.ewma > cfg.deviationThreshold * sqrt(st.ewmaVar)
    ensures Exceeds(cfg, sqrt, st, x)
  {
    var t := cfg.deviationThreshold * sqrt(st.ewmaVar);
    assert Threshold(cfg, sqrt, st) == st.ewma + t;
    assert x > st.ewma + t;
  }

  // ---------- the sample variance ----------

  function Sum(xs: seq<real>, f: real -> real): real {
    if xs == [] then 0.0 else Sum(xs[..|xs| - 1], f) + f(xs[|xs| - 1])
  }

  lemma UpdateSums(cfg: Config, sqrt: Sqrt, st: Stats, x: real)
    ensures Update(cfg, sqrt, st, x).sum == st.sum + x && Update(cfg, sqrt, st, x).sumSq == st.sumSq + x * x
  {
  }

  lemma {:induction false} SumsKept(cfg: Config, sqrt: Sqrt, xs: seq<real>)
    ensures Run(cfg, sqrt, xs).sum == Sum(xs, Id) && Run(cfg, sqrt, xs).sumSq == Sum(xs, Square)
  {
    hide Update;
    if xs != [] {
      var n := |xs| - 1;
      SumsKept(cfg, sqrt, xs[..n]);
      UpdateSums(cfg, sqrt, Run(cfg, sqrt, xs[..n]), xs[n]);
    }
  }

  lemma OneTimes(x: real)
    ensures IsProduct(x, 1.0, x)
  {
  }

  lemma {:induction false} DeviationsAround(xs: seq<real>, c: real)
    ensures SumsAround(Sum(xs, SquareFrom(c)), Sum(xs, Square), Sum(xs, Id), |xs| as real, c)
  {
    if xs != [] {
      hide SumsAround, IsProduct, SquareFrom, Square, Id, One;
      var n := |xs| - 1;
      var front, x := xs[..n], xs[n];
      DeviationsAround(front, c);
      Values(c, x);
      var e, xx := SquareFrom(c)(x), Square(x);
      OneTimes(e);
      OneTimes(xx);
      OneTimes(x);
      OneTimes(1.0);
      SpreadStep(Sum(front, SquareFrom(c)), Sum(front, Square), Sum(front, Id), n as real, 1.0, x, c, e, xx, e, xx, x, 1.0);
    }
  }

  lemma {:induction false} DeviationsNonNegative(xs: seq<real>, c: real)
    ensures Sum(xs, SquareFrom(c)) >= 0.0
  {
    if xs != [] {
      var n := |xs| - 1;
      DeviationsNonNegative(xs[..n], c);
      SquareNonNegative(xs[n] - c);
    }
  }

  /** Mean and StdDev after two samples or more. */
  lemma SpreadOf(cfg: Config, sqrt: Sqrt, xs: seq<real>)
    requires |xs| >= 2
    ensures var st := Run(cfg, sqrt, xs);
            st.mean == st.sum / |xs| as real && st.stdDev == sqrt(Max(0.0, Variance(st)))
  {
    hide Smoothed, Variance, Max;
    var n, st := |xs| - 1, Run(cfg, sqrt, xs);
    var before := Smoothed(cfg, Counted(Run(cfg, sqrt, xs[..n]), xs[n]), xs[n]);
    assert st == Spread(sqrt, before);
    SameVariance(before, st);
  }

  lemma SameVariance(s: Stats, t: Stats)
    requires s.count == t.count > 1 && s.sum == t.sum && s.sumSq == t.sumSq
    ensures Variance(s) == Variance(t)
  {
  }

  lemma SquaresOf(st: Stats, s: real)
    requires st.count > 0 && st.mean == st.sum / st.count as real
    requires SumsAround(s, st.sumSq, st.sum, st.count as real, st.mean)
    ensures SquaresAboutMean(st) == s
  {
    MeanIdentity(st.sum, st.sumSq, st.count as real, st.mean);
  }

  lemma NonNegativeQuotient(p: real, q: real)
    requires p >= 0.0 && q > 0.0
    ensures p / q >= 0.0
  {
  }

  /** With two samples or more, SumSq - Sum^2/n is the sum of the squared deviations from the mean: it is
      never negative, so cutting it at zero changes nothing, and StdDev is the root of the unbiased
      sample variance. */
  lemma SampleVarianceIsUnbiased(cfg: Config, sqrt: Sqrt, xs: seq<real>)
    requires IsSqrt(sqrt) && |xs| >= 2
    ensures var st := Run(cfg, sqrt, xs);
            && st.mean == Sum(xs, Id) / |xs| as real
            && SquaresAboutMean(st) == Sum(xs, SquareFrom(st.mean))
            && Variance(st) == Sum(xs, SquareFrom(st.mean)) / (|xs| - 1) as real >= 0.0
            && st.stdDev >= 0.0 && st.stdDev * st.stdDev == Variance(st)
  {
    hide Update, Run, Sum, SquaresAboutMean, SumsAround, SquareFrom, Square, Id;
    var st := Run(cfg, sqrt, xs);
    assert st.count == |xs|;
    SumsKept(cfg, sqrt, xs);
    SpreadOf(cfg, sqrt, xs);
    DeviationsAround(xs, st.mean);
    DeviationsNonNegative(xs, st.mean);
    SquaresOf(st, Sum(xs, SquareFrom(st.mean)));
    NonNegativeQuotient(SquaresAboutMean(st), (|xs| - 1) as real);
  }
}
