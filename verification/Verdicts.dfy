/** Threats reported by scan layers, and the verdict they add up to. */
module Verdicts {
  import opened Wrappers

  datatype ThreatInfo = ThreatInfo(name: string, layer: string, confidence: real)

  datatype Verdict = Clean | Suspicious | Malware | ScanError

  predicate IsThreat(v: Verdict) { v == Malware || v == Suspicious }

  datatype ScanTarget = ScanTarget(filename: string, size: nat, content: seq<bv8>)

  /** A layer is a named check; a failure is logged and otherwise ignored. */
  datatype Layer = Layer(name: string, scan: ScanTarget -> Result<seq<ThreatInfo>, string>)

  const THRESHOLD: real := 0.8

  /** What the threats of a completed scan amount to. */
  ghost function VerdictOf(threats: seq<ThreatInfo>): Verdict {
    if threats == [] then Clean
    else if exists k :: 0 <= k < |threats| && threats[k].confidence >= THRESHOLD then Malware
    else Suspicious
  }

  method DetermineVerdict(threats: seq<ThreatInfo>) returns (v: Verdict)
    ensures v == VerdictOf(threats)
    ensures v == Clean <==> threats == []
    ensures v == Malware <==> exists k :: 0 <= k < |threats| && threats[k].confidence >= 0.8
    ensures v != ScanError
  {
    if |threats| == 0 {
      return Clean;
    }
    var maxConfidence := 0.0;
    for i := 0 to |threats|
      invariant forall k :: 0 <= k < i ==> threats[k].confidence <= maxConfidence
      invariant maxConfidence == 0.0 || exists k :: 0 <= k < i && threats[k].confidence == maxConfidence
    {
      if threats[i].confidence > maxConfidence {
        maxConfidence := threats[i].confidence;
      }
    }
    if maxConfidence >= THRESHOLD {
      return Malware;
    }
    return Suspicious;
  }

  function Reported(layer: Layer, target: ScanTarget): seq<ThreatInfo> {
    match layer.scan(target)
    case Success(threats) => threats
    case Failure(_) => []
  }

  /** Everything the layers report, in the order they run. */
  function Threats(layers: seq<Layer>, target: ScanTarget): seq<ThreatInfo> {
    if layers == [] then []
    else Threats(layers[..|layers| - 1], target) + Reported(layers[|layers| - 1], target)
  }

  function Rank(v: Verdict): nat {
    match v
    case Clean => 0
    case Suspicious => 1
    case Malware => 2
    case ScanError => 3
  }

  /** The more severe of two verdicts. */
  function Join(a: Verdict, b: Verdict): Verdict {
    if Rank(a) >= Rank(b) then a else b
  }

  ghost function LayerVerdict(layer: Layer, target: ScanTarget): Verdict {
    VerdictOf(Reported(layer, target))
  }

  ghost function JoinOfLayers(layers: seq<Layer>, target: ScanTarget): Verdict {
    if layers == [] then Clean
    else Join(JoinOfLayers(layers[..|layers| - 1], target), LayerVerdict(layers[|layers| - 1], target))
  }

  lemma VerdictOfConcat(a: seq<ThreatInfo>, b: seq<ThreatInfo>)
    ensures VerdictOf(a + b) == Join(VerdictOf(a), VerdictOf(b))
  {
    var c := a + b;
    assert forall k :: 0 <= k < |a| ==> c[k] == a[k];
    assert forall k :: 0 <= k < |b| ==> c[|a| + k] == b[k];
    if k :| 0 <= k < |b| && b[k].confidence >= THRESHOLD {
      assert c[|a| + k].confidence >= THRESHOLD;
    }
    if k :| 0 <= k < |c| && c[k].confidence >= THRESHOLD {
      assert k >= |a| ==> b[k - |a|].confidence >= THRESHOLD;
    }
  }

  /** The verdict of a completed scan is the join of what its layers say one by one. */
  lemma {:induction false} VerdictIsJoin(layers: seq<Layer>, target: ScanTarget)
    ensures VerdictOf(Threats(layers, target)) == JoinOfLayers(layers, target)
    ensures VerdictOf(Threats(layers, target)) != ScanError
  {
    if layers == [] {
    } else {
      var init := layers[..|layers| - 1];
      VerdictIsJoin(init, target);
      VerdictOfConcat(Threats(init, target), Reported(layers[|layers| - 1], target));
    }
  }

  /** The join is at least as severe as each layer, and no more severe than all of them. */
  lemma {:induction false} JoinIsLeast(layers: seq<Layer>, target: ScanTarget, bound: nat)
    ensures Rank(JoinOfLayers(layers, target)) <= bound
       <==> forall k :: 0 <= k < |layers| ==> Rank(LayerVerdict(layers[k], target)) <= bound
  {
    if layers == [] {
    } else {
      JoinIsLeast(layers[..|layers| - 1], target, bound);
    }
  }

  /** Running more layers, in any order, never lowers the verdict. */
  lemma MoreLayersNeverLower(fewer: seq<Layer>, more: seq<Layer>, target: ScanTarget)
    requires forall l :: l in fewer ==> l in more
    ensures Rank(VerdictOf(Threats(fewer, target))) <= Rank(VerdictOf(Threats(more, target)))
  {
    VerdictIsJoin(fewer, target);
    VerdictIsJoin(more, target);
    var bound := Rank(JoinOfLayers(more, target));
    JoinIsLeast(more, target, bound);
    forall k | 0 <= k < |fewer| ensures Rank(LayerVerdict(fewer[k], target)) <= bound {
      assert fewer[k] in more;
    }
    JoinIsLeast(fewer, target, bound);
  }

  /** The order in which layers are registered does not matter for the verdict. */
  lemma LayerOrderIrrelevant(layers: seq<Layer>, permuted: seq<Layer>, target: ScanTarget)
    requires multiset(layers) == multiset(permuted)
    ensures VerdictOf(Threats(layers, target)) == VerdictOf(Threats(permuted, target))
  {
    assert forall l :: l in layers <==> l in multiset(layers);
    assert forall l :: l in permuted <==> l in multiset(permuted);
    MoreLayersNeverLower(layers, permuted, target);
    MoreLayersNeverLower(permuted, layers, target);
  }

  /** A scan all of whose layers fail answers clean: failures never reach the verdict. */
  lemma AllFailingIsClean(layers: seq<Layer>, target: ScanTarget)
    requires forall k :: 0 <= k < |layers| ==> layers[k].scan(target).Failure?
    ensures VerdictOf(Threats(layers, target)) == Clean
  {
    VerdictIsJoin(layers, target);
    JoinIsLeast(layers, target, 0);
  }
}
