/**
 * The condition evaluator: threshold, anomaly, rate-of-change and absence checks against a
 * metric source, and their conjunction.
 */
module Evaluator {
  import opened Wrappers
  import opened Statistics

  datatype Kind = Threshold | Anomaly | RateOfChange | Absent | OtherKind

  datatype EvalCondition = EvalCondition(
    kind: Kind,
    source: string,
    metric: string,
    operator: string,
    value: real,
    window: string,
    sensitivity: real,
    maxChangePct: real)

  datatype EvaluationResult = EvaluationResult(firing: bool, currentValue: real, threshold: real)

  /** The metric source: a current value, and the samples of a condition's window up to now. */
  datatype Querier = Querier(
    current: (string, string) -> Result<real, string>,
    range: EvalCondition -> Result<seq<MetricSample>, string>)

  predicate Compare(value: real, operator: string, threshold: real) {
    if operator == "gt" || operator == ">" then value > threshold
    else if operator == "gte" || operator == ">=" then value >= threshold
    else if operator == "lt" || operator == "<" then value < threshold
    else if operator == "lte" || operator == "<=" then value <= threshold
    else if operator == "eq" || operator == "==" then value == threshold
    else if operator == "ne" || operator == "!=" then value != threshold
    else value > threshold
  }

  /** Opposite operators answer oppositely, and only the distance to the threshold matters. */
  lemma CompareLaws(value: real, threshold: real, shift: real, operator: string)
    ensures Compare(value, "gt", threshold) != Compare(value, "lte", threshold)
    ensures Compare(value, "lt", threshold) != Compare(value, "gte", threshold)
    ensures Compare(value, "eq", threshold) != Compare(value, "ne", threshold)
    ensures Compare(value, "gt", threshold) == Compare(threshold, "lt", value)
    ensures Compare(value, operator, threshold) == Compare(value + shift, operator, threshold + shift)
  {
  }

  /** Zero means unset. */
  function Sensitivity(s: real): real { if s == 0.0 then 3.0 else s }

  function MaxChange(m: real): real { if m == 0.0 then 50.0 else m }

  /** A deviation of more than `s` standard deviations, said without square roots. */
  ghost predicate Exceeds(deviation: real, s: real, variance: real) {
    if s < 0.0 then deviation > 0.0 || variance > 0.0
    else deviation * deviation > s * s * variance
  }

  /** When the anomaly check fires on a window. */
  ghost predicate AnomalyFires(samples: seq<MetricSample>, s: real) {
    && |samples| >= 2
    && Exceeds(Abs(samples[|samples| - 1].value - Mean(samples)), Sensitivity(s), Variance(samples))
  }

  /** When the rate-of-change check fires on a window: no division, and no baseline of zero. */
  ghost predicate ChangeFires(samples: seq<MetricSample>, maxChangePct: real) {
    && |samples| >= 2
    && var first, last, m := samples[0].value, samples[|samples| - 1].value, MaxChange(maxChangePct);
       if first == 0.0 then m < 0.0 else Abs(last - first) * 100.0 > m * Abs(first)
  }

  /**
   * A change is reported exactly when the last sample leaves a band around the first, half of it to
   * either side if no percentage is set.
   */
  lemma ChangeLeavesBand(samples: seq<MetricSample>, maxChangePct: real)
    requires |samples| >= 2 && samples[0].value != 0.0
    ensures var first, last := samples[0].value, samples[|samples| - 1].value;
            var width := Abs(first) * (if maxChangePct == 0.0 then 0.5 else maxChangePct / 100.0);
      ChangeFires(samples, maxChangePct) <==> last < first - width || last > first + width
  {
    var first, last, m := samples[0].value, samples[|samples| - 1].value, MaxChange(maxChangePct);
    assert m * Abs(first) == 100.0 * (Abs(first) * (m / 100.0));
  }

  /** What a condition answers for a metric source. */
  ghost function Verdict(q: Option<Querier>, c: EvalCondition): Result<bool, ()> {
    if q.None? then Success(false) else
      match c.kind
      case Threshold =>
        (match q.value.current(c.source, c.metric)
         case Success(v) => Success(Compare(v, c.operator, c.value))
         case Failure(_) => Failure(()))
      case OtherKind => Failure(())
      case _ =>
        match q.value.range(c)
        case Failure(_) => Failure(())
        case Success(samples) =>
          match c.kind
          case Anomaly => Success(AnomalyFires(samples, c.sensitivity))
          case RateOfChange => Success(ChangeFires(samples, c.maxChangePct))
          case _ => Success(samples == [])
  }

  /** The change from first to last, in percent of the first; a baseline of zero counts as no change. */
  function ChangePercent(samples: seq<MetricSample>): real
    requires samples != []
  {
    var first, last := samples[0].value, samples[|samples| - 1].value;
    if first == 0.0 then 0.0 else (last - first) / Abs(first) * 100.0
  }

  lemma ChangeTimesFirst(samples: seq<MetricSample>)
    requires samples != [] && samples[0].value != 0.0
    ensures ChangePercent(samples) * Abs(samples[0].value)
         == 100.0 * (samples[|samples| - 1].value - samples[0].value)
  {
    var change, first := samples[|samples| - 1].value - samples[0].value, Abs(samples[0].value);
    assert change / first * first == change;
  }

  /** The value and the threshold a window is reported with; zeros if it is too short to judge. */
  function WindowReport(c: EvalCondition, samples: seq<MetricSample>, sqrt: real -> real): (real, real)
    requires c.kind in {Anomaly, RateOfChange, Absent}
  {
    if c.kind == Absent then (|samples| as real, 0.0)
    else if |samples| < 2 then (0.0, 0.0)
    else if c.kind == Anomaly then
      (samples[|samples| - 1].value, Mean(samples) + Sensitivity(c.sensitivity) * sqrt(Variance(samples)))
    else (ChangePercent(samples), MaxChange(c.maxChangePct))
  }

  /** What an answered condition reports beside its verdict. */
  ghost function Report(q: Option<Querier>, c: EvalCondition, sqrt: real -> real): (real, real)
    requires Verdict(q, c).Success?
  {
    if q.None? then (0.0, 0.0)
    else if c.kind == Threshold then (q.value.current(c.source, c.metric).value, c.value)
    else WindowReport(c, q.value.range(c).value, sqrt)
  }

  /** An evaluation's result carries the condition's verdict and report. */
  ghost predicate Answers(r: EvaluationResult, q: Option<Querier>, c: EvalCondition, sqrt: real -> real) {
    Verdict(q, c) == Success(r.firing) && (r.currentValue, r.threshold) == Report(q, c, sqrt)
  }

  lemma ProductPositive(x: real, y: real)
    requires x > 0.0 && y > 0.0
    ensures x * y > 0.0
  {
  }

  lemma ProductNonNegative(x: real, y: real)
    requires x >= 0.0 && y >= 0.0
    ensures x * y >= 0.0
  {
  }

  lemma SquareMonotone(a: real, b: real)
    requires 0.0 <= a && 0.0 <= b
    ensures a > b <==> a * a > b * b
  {
    if a > b {
      ProductPositive(a, a - b);
      ProductNonNegative(b, a - b);
    } else {
      ProductNonNegative(a, b - a);
      ProductNonNegative(b, b - a);
    }
  }

  /** Comparing with a root and comparing squares say the same. */
  lemma ExceedsMeans(deviation: real, s: real, variance: real, root: real)
    requires deviation >= 0.0 && root >= 0.0 && root * root == variance
    ensures deviation > s * root <==> Exceeds(deviation, s, variance)
  {
    if s >= 0.0 {
      SquareMonotone(deviation, s * root);
      assert (s * root) * (s * root) == s * s * variance;
    } else if root == 0.0 {
      assert s * root == 0.0;
    } else {
      assert s * root < 0.0;
      SquareMonotone(root, 0.0);
    }
  }

  method EvalAnomaly(samples: seq<MetricSample>, sensitivity: real, sqrt: real -> real)
    returns (r: EvaluationResult)
    requires IsSqrt(sqrt)
    ensures r.firing == AnomalyFires(samples, sensitivity)
    ensures (r.currentValue, r.threshold)
         == if |samples| < 2 then (0.0, 0.0)
            else (samples[|samples| - 1].value, Mean(samples) + Sensitivity(sensitivity) * sqrt(Variance(samples)))
  {
    if |samples| < 2 {
      return EvaluationResult(false, 0.0, 0.0);
    }
    var mean, stddev := ComputeStats(samples, sqrt);
    var current := samples[|samples| - 1].value;
    var s := sensitivity;
    if s == 0.0 {
      s := 3.0;
    }
    var deviation := Abs(current - mean);
    ExceedsMeans(deviation, s, Variance(samples), stddev);
    r := EvaluationResult(deviation > s * stddev, current, mean + s * stddev);
  }

  lemma ChangeInPercent(first: real, last: real, m: real)
    requires first != 0.0
    ensures Abs((last - first) / Abs(first) * 100.0) > m <==> Abs(last - first) * 100.0 > m * Abs(first)
  {
    var a, x := Abs(first), Abs(last - first) / Abs(first);
    assert Abs((last - first) / a * 100.0) == x * 100.0 by {
      if last < first {
        assert (last - first) / a == -x;
      }
    }
    assert x * a == Abs(last - first);
    assert x * 100.0 > m <==> x * 100.0 * a > m * a;
  }

  method EvalRateOfChange(samples: seq<MetricSample>, maxChangePct: real) returns (r: EvaluationResult)
    ensures r.firing == ChangeFires(samples, maxChangePct)
    ensures (r.currentValue, r.threshold)
         == if |samples| < 2 then (0.0, 0.0) else (ChangePercent(samples), MaxChange(maxChangePct))
    ensures |samples| < 2 ==> !r.firing
    ensures |samples| >= 2 && samples[0].value == 0.0 ==> r.currentValue == 0.0 && (r.firing <==> maxChangePct < 0.0)
  {
    if |samples| < 2 {
      return EvaluationResult(false, 0.0, 0.0);
    }
    var first, last := samples[0].value, samples[|samples| - 1].value;
    var changePct := 0.0;
    if first != 0.0 {
      changePct := (last - first) / Abs(first) * 100.0;
    }
    var maxChange := MaxChange(maxChangePct);
    r := EvaluationResult(Abs(changePct) > maxChange, changePct, maxChange);
    if first != 0.0 {
      ChangeInPercent(first, last, maxChange);
    }
  }

  method Evaluate(q: Option<Querier>, c: EvalCondition, sqrt: real -> real)
    returns (r: Result<EvaluationResult, string>)
    requires IsSqrt(sqrt)
    ensures r.Failure? <==> Verdict(q, c).Failure?
    ensures r.Success? ==> Answers(r.value, q, c, sqrt)
    ensures r.Success? && q.None? ==> !r.value.firing
    ensures r.Success? && q.Some? && c.kind == Threshold ==>
              var current, threshold := r.value.currentValue, c.value;
              && (c.operator in {"gte", ">="} ==> (r.value.firing <==> current >= threshold))
              && (c.operator in {"lt", "<"} ==> (r.value.firing <==> current < threshold))
              && (c.operator in {"lte", "<="} ==> (r.value.firing <==> current <= threshold))
              && (c.operator in {"eq", "=="} ==> (r.value.firing <==> current == threshold))
              && (c.operator in {"ne", "!="} ==> (r.value.firing <==> current != threshold))
              && (c.operator !in {"gte", ">=", "lt", "<", "lte", "<=", "eq", "==", "ne", "!="} ==>
                    (r.value.firing <==> current > threshold))
    ensures r.Success? && q.Some? && c.kind == Absent ==> (r.value.firing <==> r.value.currentValue == 0.0)
  {
    if q.None? {
      return Success(EvaluationResult(false, 0.0, 0.0));
    }
    match c.kind {
      case Threshold =>
        match q.value.current(c.source, c.metric) {
          case Failure(e) => return Failure(e);
          case Success(value) => return Success(EvaluationResult(Compare(value, c.operator, c.value), value, c.value));
        }
      case OtherKind => return Failure("unsupported condition type");
      case _ =>
    }
    var answer := q.value.range(c);
    if answer.Failure? {
      return Failure(answer.error);
    }
    var samples := answer.value;
    var e;
    match c.kind {
      case Anomaly => e := EvalAnomaly(samples, c.sensitivity, sqrt);
      case RateOfChange => e := EvalRateOfChange(samples, c.maxChangePct);
      case _ => e := EvaluationResult(|samples| == 0, |samples| as real, 0.0);
    }
    assert c.kind == Anomaly ==> e.threshold == WindowReport(c, samples, sqrt).1;
    return Success(e);
  }

  /** The condition at `k` decides a conjunction: all before it fire, and it does not. */
  ghost predicate Decides(q: Option<Querier>, conditions: seq<EvalCondition>, k: int) {
    && 0 <= k < |conditions|
    && (forall j :: 0 <= j < k ==> Verdict(q, conditions[j]) == Success(true))
    && Verdict(q, conditions[k]) != Success(true)
  }

  /**
   * All conditions must fire. Otherwise the first that does not decides: its failure fails the whole
   * evaluation, and if it just does not fire, its result is the answer.
   */
  method EvaluateAll(q: Option<Querier>, conditions: seq<EvalCondition>, sqrt: real -> real)
    returns (r: Result<EvaluationResult, string>)
    requires IsSqrt(sqrt)
    ensures r.Success? && r.value.firing <==>
              forall i :: 0 <= i < |conditions| ==> Verdict(q, conditions[i]) == Success(true)
    ensures forall k :: Decides(q, conditions, k) ==>
              && (r.Failure? <==> Verdict(q, conditions[k]).Failure?)
              && (r.Success? ==> Answers(r.value, q, conditions[k], sqrt))
    ensures (forall k :: !Decides(q, conditions, k)) ==> r == Success(EvaluationResult(true, 0.0, 0.0))
  {
    for k := 0 to |conditions|
      invariant forall j :: 0 <= j < k ==> Verdict(q, conditions[j]) == Success(true)
    {
      var result := Evaluate(q, conditions[k], sqrt);
      if result.Failure? || !result.value.firing {
        assert Decides(q, conditions, k);
        return result;
      }
    }
    return Success(EvaluationResult(true, 0.0, 0.0));
  }
}
