/**
 * When the anomaly check can fire at all. The latest sample is part of the window it is compared
 * with, so a short window can never deviate enough; the bound is exact.
 */
module AnomalyBound {
  import opened Statistics
  import opened Evaluator

  /** An anomaly needs more samples than the square of the sensitivity, plus one. */
  lemma AnomalyNeedsSamples(samples: seq<MetricSample>, s: real)
    requires s > 0.0 && AnomalyFires(samples, s)
    ensures |samples| as real - 1.0 > s * s
  {
    var d, v, n := samples[|samples| - 1].value - Mean(samples), Variance(samples), |samples| as real;
    LastSampleBound(samples);
    assert d * d <= (n - 1.0) * v;
    assert Abs(d) * Abs(d) == d * d;
    assert d * d > s * s * v;
    SquaredDeviationsNonNegative(samples, Mean(samples));
    QuotientNonNegative(SquaredDeviations(samples, Mean(samples)), n);
    if s * s >= n - 1.0 {
      ProductNonNegative(s * s - (n - 1.0), v);
      assert false;
    }
  }

  function Flat(n: nat): seq<MetricSample> {
    seq(n, _ => MetricSample(0, 0.0))
  }

  /** A window of zeros with a final one. */
  function Spike(n: nat): seq<MetricSample>
    requires n > 0
  {
    Flat(n - 1) + [MetricSample(0, 1.0)]
  }

  lemma {:induction false} FlatStats(n: nat, m: real)
    ensures Sum(Flat(n)) == 0.0
    ensures SquaredDeviations(Flat(n), m) == n as real * (m * m)
  {
    if n == 0 {
    } else {
      assert Flat(n)[..n - 1] == Flat(n - 1);
      FlatStats(n - 1, m);
      assert SquaredDeviations(Flat(n), m) == (n - 1) as real * (m * m) + m * m;
    }
  }

  lemma SpikeAlgebra(n: real, m: real)
    requires n > 0.0 && n * m == 1.0
    ensures (n - 1.0) * (m * m) + (1.0 - m) * (1.0 - m) == n * (m * (1.0 - m))
  {
    assert n * m * m == m;
    assert (n - 1.0) * (m * m) == m - m * m;
    assert n * (m * (1.0 - m)) == 1.0 - m;
  }

  lemma SpikeStats(n: nat, r: real, m: real)
    requires n > 0 && r == n as real && r * m == 1.0
    ensures Mean(Spike(n)) == m && Variance(Spike(n)) == m * (1.0 - m)
  {
    var s := Spike(n);
    assert s[..n - 1] == Flat(n - 1);
    FlatStats(n - 1, m);
    SpikeAlgebra(r, m);
    StatsAre(s, r, m, m * (1.0 - m));
  }

  /** With more samples than that, a single spike does fire. */
  lemma SpikeFires(n: nat, s: real)
    requires n >= 2 && s > 0.0 && n as real - 1.0 > s * s
    ensures AnomalyFires(Spike(n), s)
  {
    var r := n as real;
    var m := 1.0 / r;
    DividedBack(1.0, r);
    SpikeStats(n, r, m);
    assert 0.0 < m < 1.0;
    var d := 1.0 - m;
    assert (r - 1.0 - s * s) * m > 0.0;
    assert (r - 1.0 - s * s) * m == d - s * s * m;
    assert (d - s * s * m) * d > 0.0;
    assert (d - s * s * m) * d == d * d - s * s * (m * d);
  }

  /** Windows of n samples can fire at sensitivity s exactly when n - 1 > s squared. */
  lemma AnomalyBoundExact(n: nat, s: real)
    requires n >= 2 && s > 0.0
    ensures (exists samples :: |samples| == n && AnomalyFires(samples, s)) <==> n as real - 1.0 > s * s
  {
    if n as real - 1.0 > s * s {
      SpikeFires(n, s);
      assert |Spike(n)| == n;
    } else {
      forall samples: seq<MetricSample> | |samples| == n
        ensures !AnomalyFires(samples, s)
      {
        if AnomalyFires(samples, s) {
          AnomalyNeedsSamples(samples, s);
        }
      }
    }
  }

  /** The default of three standard deviations never fires on ten samples or fewer, and can on eleven. */
  lemma DefaultNeedsElevenSamples(samples: seq<MetricSample>)
    ensures |samples| <= 10 ==> !AnomalyFires(samples, 0.0)
    ensures AnomalyFires(Spike(11), 0.0)
  {
    assert AnomalyFires(samples, 0.0) <==> AnomalyFires(samples, 3.0);
    if |samples| <= 10 && AnomalyFires(samples, 0.0) {
      AnomalyNeedsSamples(samples, 3.0);
    }
    SpikeFires(11, 3.0);
  }

  /** The samples in another unit: multiplied by `a` and shifted by `b`. */
  function Rescaled(samples: seq<MetricSample>, a: real, b: real): seq<MetricSample> {
    seq(|samples|, i requires 0 <= i < |samples| => samples[i].(value := a * samples[i].value + b))
  }

  lemma RescaledInit(samples: seq<MetricSample>, a: real, b: real)
    requires samples != []
    ensures Rescaled(samples, a, b)[..|samples| - 1] == Rescaled(samples[..|samples| - 1], a, b)
    ensures Rescaled(samples, a, b)[|samples| - 1].value == a * samples[|samples| - 1].value + b
  {
    var init := samples[..|samples| - 1];
    forall i | 0 <= i < |init| ensures Rescaled(samples, a, b)[i] == Rescaled(init, a, b)[i] {
      assert init[i] == samples[i];
    }
  }

  lemma DeviationScales(a: real, b: real, x: real, m: real, x': real, m': real)
    requires x' == a * x + b && m' == a * m + b
    ensures x' - m' == a * (x - m)
  {
  }

  lemma SquaresScale(a: real, k: real, d: real, d': real)
    requires k == a * a && d' == a * d
    ensures d' * d' == k * (d * d)
  {
  }

  lemma ProductsEqual(x: real, y: real, v: real)
    requires x == y
    ensures x * v == y * v
  {
  }

  lemma {:induction false} RescaledSum(samples: seq<MetricSample>, a: real, b: real)
    ensures Sum(Rescaled(samples, a, b)) == a * Sum(samples) + |samples| as real * b
  {
    if samples == [] {
    } else {
      var init := samples[..|samples| - 1];
      RescaledInit(samples, a, b);
      RescaledSum(init, a, b);
    }
  }

  function SquareAt(samples: seq<MetricSample>, m: real, i: nat): real
    requires i < |samples|
  {
    (samples[i].value - m) * (samples[i].value - m)
  }

  ghost predicate SquaresScaled(s: seq<MetricSample>, s': seq<MetricSample>, m: real, m': real, k: real) {
    |s'| == |s| && forall i :: 0 <= i < |s| ==> SquareAt(s', m', i) == k * SquareAt(s, m, i)
  }

  lemma SquaresScaledSplits(s: seq<MetricSample>, s': seq<MetricSample>, m: real, m': real, k: real)
    requires s != [] && SquaresScaled(s, s', m, m', k)
    ensures SquaresScaled(s[..|s| - 1], s'[..|s| - 1], m, m', k)
    ensures SquareAt(s', m', |s| - 1) == k * SquareAt(s, m, |s| - 1)
  {
    var n := |s| - 1;
    forall i | 0 <= i < n ensures SquareAt(s'[..n], m', i) == k * SquareAt(s[..n], m, i) {
      assert SquareAt(s', m', i) == k * SquareAt(s, m, i);
    }
  }

  lemma SumScaled(k: real, x: real, y: real, x': real, y': real)
    requires x' == k * x && y' == k * y
    ensures x' + y' == k * (x + y)
  {
  }

  lemma {:induction false} ScaledSquares(s: seq<MetricSample>, s': seq<MetricSample>, m: real, m': real, k: real)
    requires SquaresScaled(s, s', m, m', k)
    ensures SquaredDeviations(s', m') == k * SquaredDeviations(s, m)
  {
    if s == [] {
    } else {
      var n := |s| - 1;
      SquaresScaledSplits(s, s', m, m', k);
      ScaledSquares(s[..n], s'[..n], m, m', k);
      SumScaled(k, SquaredDeviations(s[..n], m), SquareAt(s, m, n),
                SquaredDeviations(s'[..n], m'), SquareAt(s', m', n));
    }
  }

  lemma RescaledSquares(samples: seq<MetricSample>, a: real, b: real, m: real, m': real, k: real)
    requires m' == a * m + b && k == a * a
    ensures SquaredDeviations(Rescaled(samples, a, b), m') == k * SquaredDeviations(samples, m)
  {
    var samples' := Rescaled(samples, a, b);
    forall i | 0 <= i < |samples| ensures SquareAt(samples', m', i) == k * SquareAt(samples, m, i) {
      DeviationScales(a, b, samples[i].value, m, samples'[i].value, m');
      SquaresScale(a, k, samples[i].value - m, samples'[i].value - m');
    }
    ScaledSquares(samples, samples', m, m', k);
  }

  lemma QuotientScales(x: real, y: real, n: real, a: real)
    requires n > 0.0 && y == a * x
    ensures y / n == a * (x / n)
  {
  }

  lemma MeanScales(sum: real, n: real, a: real, b: real, sum': real)
    requires n > 0.0 && sum' == a * sum + n * b
    ensures sum' / n == a * (sum / n) + b
  {
  }

  lemma RescaledMean(samples: seq<MetricSample>, a: real, b: real)
    requires samples != []
    ensures Mean(Rescaled(samples, a, b)) == a * Mean(samples) + b
  {
    var s := Rescaled(samples, a, b);
    RescaledSum(samples, a, b);
    assert |s| == |samples|;
    MeanScales(Sum(samples), |samples| as real, a, b, Sum(s));
  }

  lemma VarianceScales(samples: seq<MetricSample>, samples': seq<MetricSample>, k: real)
    requires samples != [] && |samples'| == |samples|
    requires SquaredDeviations(samples', Mean(samples')) == k * SquaredDeviations(samples, Mean(samples))
    ensures Variance(samples') == k * Variance(samples)
  {
    QuotientScales(SquaredDeviations(samples, Mean(samples)), SquaredDeviations(samples', Mean(samples')),
                   |samples| as real, k);
  }

  lemma RescaledVariance(samples: seq<MetricSample>, a: real, b: real, m: real, m': real, k: real)
    requires samples != [] && k == a * a && m == Mean(samples) && m' == Mean(Rescaled(samples, a, b))
    requires m' == a * m + b
    ensures Variance(Rescaled(samples, a, b)) == k * Variance(samples)
  {
    RescaledSquares(samples, a, b, m, m', k);
    VarianceScales(samples, Rescaled(samples, a, b), k);
  }

  lemma ExceedsScales(d: real, s: real, v: real, k: real, d': real, v': real)
    requires k > 0.0 && d >= 0.0 && v >= 0.0 && d' == k * d && v' == k * k * v
    ensures Exceeds(d', s, v') <==> Exceeds(d, s, v)
  {
    if s < 0.0 {
      assert k * d > 0.0 <==> d > 0.0;
      assert k * k > 0.0;
      assert k * k * v > 0.0 <==> v > 0.0;
    } else {
      var x, y := d * d, s * s * v;
      assert (k * d) * (k * d) == k * k * x;
      assert s * s * (k * k * v) == k * k * y;
      assert k * k > 0.0;
      assert k * k * x - k * k * y == k * k * (x - y);
    }
  }

  lemma AbsScales(a: real, d: real, d': real)
    requires d' == a * d
    ensures Abs(d') == Abs(a) * Abs(d)
    ensures Abs(a) * Abs(a) == a * a
  {
    if a < 0.0 && d < 0.0 {
      ProductPositive(-a, -d);
    } else if a < 0.0 {
      ProductNonNegative(-a, d);
    } else if d < 0.0 {
      ProductNonNegative(a, -d);
    } else {
      ProductNonNegative(a, d);
    }
  }

  /** Whether a window is anomalous does not depend on the metric's unit or offset. */
  lemma AnomalyIsUnitFree(samples: seq<MetricSample>, s: real, a: real, b: real)
    requires a != 0.0
    ensures AnomalyFires(Rescaled(samples, a, b), s) <==> AnomalyFires(samples, s)
  {
    if |samples| >= 2 {
      var t, x, m := Rescaled(samples, a, b), samples[|samples| - 1].value, Mean(samples);
      var x', m' := t[|t| - 1].value, Mean(t);
      RescaledMean(samples, a, b);
      RescaledVariance(samples, a, b, m, m', a * a);
      RescaledInit(samples, a, b);
      DeviationScales(a, b, x, m, x', m');
      AbsScales(a, x - m, x' - m');
      ProductsEqual(a * a, Abs(a) * Abs(a), Variance(samples));
      SquaredDeviationsNonNegative(samples, m);
      QuotientNonNegative(SquaredDeviations(samples, m), |samples| as real);
      ExceedsScales(Abs(x - m), Sensitivity(s), Variance(samples), Abs(a), Abs(x' - m'), Variance(t));
    }
  }
}
