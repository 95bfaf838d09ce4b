/** Sums, mean and population variance of a window of samples, over the reals. */
module Statistics {

  datatype MetricSample = MetricSample(timestamp: int, value: real)

  function Sum(samples: seq<MetricSample>): real {
    if samples == [] then 0.0 else Sum(samples[..|samples| - 1]) + samples[|samples| - 1].value
  }

  function SquaredDeviations(samples: seq<MetricSample>, m: real): real {
    if samples == [] then 0.0 else
      var d := samples[|samples| - 1].value - m;
      SquaredDeviations(samples[..|samples| - 1], m) + d * d
  }

  lemma DividedBack(x: real, n: real)
    requires n > 0.0
    ensures n * (x / n) == x
  {
  }

  function Mean(samples: seq<MetricSample>): (m: real)
    requires samples != []
    ensures |samples| as real * m == Sum(samples)
  {
    DividedBack(Sum(samples), |samples| as real);
    Sum(samples) / |samples| as real
  }

  function Variance(samples: seq<MetricSample>): (v: real)
    requires samples != []
    ensures |samples| as real * v == SquaredDeviations(samples, Mean(samples))
  {
    DividedBack(SquaredDeviations(samples, Mean(samples)), |samples| as real);
    SquaredDeviations(samples, Mean(samples)) / |samples| as real
  }

  function Abs(x: real): real { if x < 0.0 then -x else x }

  ghost predicate IsSqrt(sqrt: real -> real) {
    forall x :: x >= 0.0 ==> sqrt(x) >= 0.0 && sqrt(x) * sqrt(x) == x
  }

  lemma SquareNonNegative(x: real)
    ensures x * x >= 0.0
  {
    if x >= 0.0 {
    } else {
      assert x * x == (-x) * (-x);
    }
  }

  lemma {:induction false} SquaredDeviationsNonNegative(samples: seq<MetricSample>, m: real)
    ensures SquaredDeviations(samples, m) >= 0.0
  {
    if samples == [] {
    } else {
      SquaredDeviationsNonNegative(samples[..|samples| - 1], m);
      SquareNonNegative(samples[|samples| - 1].value - m);
    }
  }

  lemma QuotientNonNegative(x: real, n: real)
    requires x >= 0.0 && n > 0.0
    ensures x / n >= 0.0
  {
  }

  /** Mean and standard deviation in two passes; `sqrt` stands for the library's square root. */
  method ComputeStats(samples: seq<MetricSample>, sqrt: real -> real) returns (mean: real, stddev: real)
    requires IsSqrt(sqrt)
    ensures samples == [] ==> mean == 0.0 && stddev == 0.0
    ensures samples != [] ==>
              && mean == Mean(samples) && stddev == sqrt(Variance(samples))
              && stddev >= 0.0 && stddev * stddev == Variance(samples)
  {
    if |samples| == 0 {
      return 0.0, 0.0;
    }
    var n := |samples| as real;
    var sum := 0.0;
    for i := 0 to |samples|
      invariant sum == Sum(samples[..i])
    {
      assert samples[..i + 1][..i] == samples[..i];
      sum := sum + samples[i].value;
    }
    assert samples[..|samples|] == samples;
    mean := sum / n;
    var variance := 0.0;
    for i := 0 to |samples|
      invariant variance == SquaredDeviations(samples[..i], mean)
    {
      assert samples[..i + 1][..i] == samples[..i];
      var diff := samples[i].value - mean;
      variance := variance + diff * diff;
    }
    SquaredDeviationsNonNegative(samples, mean);
    QuotientNonNegative(variance, n);
    stddev := sqrt(variance / n);
  }

  /** One more term: s and q are the sum and the sum of squares of m terms, s1 and q1 of m + 1. */
  lemma CauchySchwarzStep(m: real, s: real, q: real, d: real, m1: real, s1: real, q1: real)
    requires m >= 0.0 && q >= 0.0 && s * s <= m * q
    requires m == 0.0 ==> s == 0.0 && q == 0.0
    requires m1 == m + 1.0 && s1 == s + d && q1 == q + d * d
    ensures s1 * s1 <= m1 * q1
  {
    if m > 0.0 {
      var x := q + m * d * d - 2.0 * s * d;
      assert m * x >= (s - m * d) * (s - m * d);
      SquareNonNegative(s - m * d);
      assert x >= 0.0;
      assert m1 * q1 - s1 * s1 == (m * q - s * s) + x;
    }
  }

  function SumOfDeviations(samples: seq<MetricSample>, m: real): real {
    if samples == [] then 0.0
    else SumOfDeviations(samples[..|samples| - 1], m) + (samples[|samples| - 1].value - m)
  }

  lemma {:induction false} SumOfDeviationsIs(samples: seq<MetricSample>, m: real)
    ensures SumOfDeviations(samples, m) == Sum(samples) - |samples| as real * m
  {
    if samples == [] {
    } else {
      SumOfDeviationsIs(samples[..|samples| - 1], m);
    }
  }

  /** The square of a sum is at most the number of terms times the sum of the squares. */
  lemma {:induction false} CauchySchwarz(samples: seq<MetricSample>, m: real, n: real)
    requires n == |samples| as real
    ensures SumOfDeviations(samples, m) * SumOfDeviations(samples, m) <= n * SquaredDeviations(samples, m)
    ensures samples == [] ==> SumOfDeviations(samples, m) == 0.0 && SquaredDeviations(samples, m) == 0.0
  {
    if samples == [] {
    } else {
      var init := samples[..|samples| - 1];
      CauchySchwarz(init, m, n - 1.0);
      SquaredDeviationsNonNegative(init, m);
      CauchySchwarzStep(n - 1.0, SumOfDeviations(init, m), SquaredDeviations(init, m),
                        samples[|samples| - 1].value - m,
                        n, SumOfDeviations(samples, m), SquaredDeviations(samples, m));
    }
  }

  lemma SamuelsonAlgebra(n: real, d: real, s: real, q: real, variance: real)
    requires n >= 1.0 && s + d == 0.0
    requires s * s <= (n - 1.0) * q
    requires n * variance == q + d * d
    ensures d * d <= (n - 1.0) * variance
  {
    assert s * s == d * d;
    assert n * (d * d) <= (n - 1.0) * (q + d * d);
    assert (n - 1.0) * (q + d * d) == n * ((n - 1.0) * variance);
  }

  lemma LastSampleBoundFor(samples: seq<MetricSample>, n: real, m: real, v: real, d: real)
    requires samples != [] && n == |samples| as real
    requires n * m == Sum(samples) && n * v == SquaredDeviations(samples, m)
    requires d == samples[|samples| - 1].value - m
    ensures d * d <= (n - 1.0) * v
  {
    var init := samples[..|samples| - 1];
    CauchySchwarz(init, m, n - 1.0);
    SumOfDeviationsIs(samples, m);
    SamuelsonAlgebra(n, d, SumOfDeviations(init, m), SquaredDeviations(init, m), v);
  }

  /** No sample of a window is further than sqrt(n - 1) standard deviations from its mean. */
  lemma LastSampleBound(samples: seq<MetricSample>)
    requires samples != []
    ensures var d := samples[|samples| - 1].value - Mean(samples);
      d * d <= (|samples| as real - 1.0) * Variance(samples)
  {
    LastSampleBoundFor(samples, |samples| as real, Mean(samples), Variance(samples),
                       samples[|samples| - 1].value - Mean(samples));
  }

  lemma CancelledFactor(n: real, x: real, y: real)
    requires n > 0.0 && n * x == n * y
    ensures x == y
  {
  }

  /** The mean and the variance are the only numbers that multiply back to the sums. */
  lemma StatsAre(samples: seq<MetricSample>, n: real, m: real, v: real)
    requires samples != [] && n == |samples| as real
    requires n * m == Sum(samples) && n * v == SquaredDeviations(samples, m)
    ensures Mean(samples) == m && Variance(samples) == v
  {
    CancelledFactor(n, Mean(samples), m);
    CancelledFactor(n, Variance(samples), v);
  }
}
