/**
 * The antivirus engine: layer registration, one scan at a time, the statistics and the bounded
 * log of threats.
 */
module Antivirus {
  import opened Wrappers
  import opened Verdicts

  const MAX_THREAT_LOG: nat := 1000

  datatype ScanResult = ScanResult(verdict: Verdict, threats: seq<ThreatInfo>, filename: string,
                                   fileSize: nat, layersRun: seq<string>)

  /** The last `n` of a sequence, or all of it. */
  function Newest<T>(s: seq<T>, n: nat): seq<T> {
    if |s| <= n then s else s[|s| - n..]
  }

  function Names(layers: seq<Layer>): seq<string> {
    seq(|layers|, i requires 0 <= i < |layers| => layers[i].name)
  }

  ghost predicate DistinctNames(layers: seq<Layer>) {
    forall i, j :: 0 <= i < j < |layers| ==> layers[i].name != layers[j].name
  }

  /** A layer whose name is taken is ignored. */
  ghost function Registered(layers: seq<Layer>, layer: Layer): seq<Layer> {
    if layer.name in Names(layers) then layers else layers + [layer]
  }

  /** The result of a scan whose cancellation, if any, is seen before the layer `cancelAt`. */
  ghost function Completed(layers: seq<Layer>, target: ScanTarget): ScanResult {
    var threats := Threats(layers, target);
    ScanResult(VerdictOf(threats), threats, target.filename, target.size, Names(layers))
  }

  ghost function Interrupted(layers: seq<Layer>, target: ScanTarget, at: nat): ScanResult
    requires at <= |layers|
  {
    ScanResult(ScanError, Threats(layers[..at], target), target.filename, target.size, Names(layers[..at]))
  }

  /** The counters and the threat log, which all scans of an engine share. */
  datatype Books = Books(
    totalScanned: nat, threatsFound: nat, cleanFiles: nat, errorCount: nat, threatLog: seq<ScanResult>)

  /** A log with one more threat, without its oldest if it gets too long. */
  function Logged(log: seq<ScanResult>, r: ScanResult): seq<ScanResult> {
    var t := log + [r];
    if |t| > MAX_THREAT_LOG then t[|t| - MAX_THREAT_LOG..] else t
  }

  /** The books after a scan completed with the result `r`. */
  function Entered(b: Books, r: ScanResult): Books {
    if IsThreat(r.verdict) then
      b.(totalScanned := b.totalScanned + 1, threatsFound := b.threatsFound + 1,
         threatLog := Logged(b.threatLog, r))
    else b.(totalScanned := b.totalScanned + 1, cleanFiles := b.cleanFiles + 1)
  }

  /** The books after a scan was cancelled. */
  function Failed(b: Books): Books {
    b.(errorCount := b.errorCount + 1)
  }

  lemma NewestOfAppended<T>(s: seq<T>, x: T, n: nat)
    requires n > 0
    ensures var t := Newest(s, n) + [x];
      Newest(s + [x], n) == if |t| > n then t[|t| - n..] else t
  {
  }

  class Engine {
    var enabled: bool
    var maxFileSize: nat
    var started: bool
    var layers: seq<Layer>
    var totalScanned: nat
    var threatsFound: nat
    var cleanFiles: nat
    var errorCount: nat
    var bytesScanned: nat
    var threatLog: seq<ScanResult>
    /** Every threat ever recorded, and how many scans went into the layers. */
    ghost var recorded: seq<ScanResult>
    ghost var attempts: nat

    ghost predicate Valid()
      reads this
    {
      && DistinctNames(layers)
      && totalScanned == threatsFound + cleanFiles
      && attempts == totalScanned + errorCount
      && threatsFound == |recorded|
      && threatLog == Newest(recorded, MAX_THREAT_LOG)
      && forall k :: 0 <= k < |recorded| ==> IsThreat(recorded[k].verdict)
    }

    function Current(): Books
      reads this
    {
      Books(totalScanned, threatsFound, cleanFiles, errorCount, threatLog)
    }

    constructor (enabled: bool, maxFileSize: nat)
      ensures Valid() && !started && layers == [] && recorded == [] && attempts == 0
      ensures this.enabled == enabled && this.maxFileSize == maxFileSize
    {
      this.enabled, this.maxFileSize, started := enabled, maxFileSize, false;
      layers := [];
      totalScanned, threatsFound, cleanFiles, errorCount, bytesScanned := 0, 0, 0, 0, 0;
      threatLog, recorded, attempts := [], [], 0;
    }

    /** The program panics when called after the start; the names of the layers stay distinct. */
    method RegisterLayer(layer: Layer)
      requires Valid() && !started
      modifies this`layers
      ensures Valid() && layers == Registered(old(layers), layer)
      ensures layers == if exists k :: 0 <= k < |old(layers)| && old(layers)[k].name == layer.name
                        then old(layers) else old(layers) + [layer]
    {
      for i := 0 to |layers|
        invariant layers == old(layers)
        invariant forall k :: 0 <= k < i ==> layers[k].name != layer.name
      {
        if layers[i].name == layer.name {
          assert Names(layers)[i] == layer.name;
          return;
        }
      }
      assert forall k :: 0 <= k < |layers| ==> Names(layers)[k] == layers[k].name;
      layers := layers + [layer];
    }

    method RecordThreat(result: ScanResult)
      requires threatLog == Newest(recorded, MAX_THREAT_LOG)
      modifies this`threatLog, this`recorded
      ensures recorded == old(recorded) + [result]
      ensures threatLog == Logged(old(threatLog), result) == Newest(recorded, MAX_THREAT_LOG)
    {
      NewestOfAppended(recorded, result, MAX_THREAT_LOG);
      threatLog := threatLog + [result];
      if |threatLog| > MAX_THREAT_LOG {
        var evict := |threatLog| - MAX_THREAT_LOG;
        threatLog := threatLog[evict..];
      }
      recorded := recorded + [result];
    }

    /** A copy of the log, newest first. */
    method RecentThreats() returns (result: seq<ScanResult>)
      requires Valid()
      ensures |result| == if |recorded| <= 1000 then |recorded| else 1000
      ensures forall k :: 0 <= k < |result| ==> result[k] == recorded[|recorded| - 1 - k]
    {
      var n := |threatLog|;
      result := threatLog;
      for i := 0 to n
        invariant |result| == n
        invariant forall k :: 0 <= k < i ==> result[n - 1 - k] == threatLog[k]
      {
        result := result[n - 1 - i := threatLog[i]];
      }
    }

    /** Runs the layers until the one before which cancellation is seen. */
    method RunLayers(target: ScanTarget, cancelAt: Option<nat>) returns (found: seq<ThreatInfo>, run: seq<string>)
      ensures var n := if cancelAt.Some? && cancelAt.value < |layers| then cancelAt.value else |layers|;
        found == Threats(layers[..n], target) && run == Names(layers[..n])
    {
      found, run := [], [];
      for i := 0 to |layers|
        invariant cancelAt.Some? ==> i <= cancelAt.value
        invariant found == Threats(layers[..i], target) && run == Names(layers[..i])
      {
        if cancelAt == Some(i) {
          return;
        }
        assert layers[..i + 1][..i] == layers[..i];
        run := run + [layers[i].name];
        var answer := layers[i].scan(target);
        if answer.Success? && |answer.value| > 0 {
          found := found + answer.value;
        }
      }
    }

    method CountResult(verdict: Verdict, size: nat)
      requires verdict != ScanError
      modifies this`totalScanned, this`bytesScanned, this`threatsFound, this`cleanFiles
      ensures totalScanned == old(totalScanned) + 1 && bytesScanned == old(bytesScanned) + size
      ensures threatsFound == old(threatsFound) + if IsThreat(verdict) then 1 else 0
      ensures cleanFiles == old(cleanFiles) + if verdict == Clean then 1 else 0
    {
      totalScanned := totalScanned + 1;
      bytesScanned := bytesScanned + size;
      match verdict {
        case Malware | Suspicious => threatsFound := threatsFound + 1;
        case Clean => cleanFiles := cleanFiles + 1;
        case ScanError => assert false;
      }
    }

    /**
     * One scan. A disabled engine and an oversized file answer clean without touching anything; a
     * cancelled scan counts as an error; a completed one carries the threats of all layers.
     */
    method Scan(target: ScanTarget, cancelAt: Option<nat>) returns (result: ScanResult, cancelled: bool)
      requires Valid()
      modifies this`totalScanned, this`bytesScanned, this`threatsFound, this`cleanFiles, this`errorCount,
               this`threatLog, this`recorded, this`attempts
      ensures Valid()
      ensures var skipped := !enabled || target.size > maxFileSize;
        && cancelled == (!skipped && cancelAt.Some? && cancelAt.value < |layers|)
        && result == (if skipped then ScanResult(Clean, [], "", if enabled then target.size else 0, [])
                      else if cancelled then Interrupted(layers, target, cancelAt.value)
                      else Completed(layers, target))
        && Current() == (if skipped then old(Current())
                         else if cancelled then Failed(old(Current()))
                         else Entered(old(Current()), result))
        && bytesScanned == old(bytesScanned) + (if skipped || cancelled then 0 else target.size)
        && attempts == old(attempts) + (if skipped then 0 else 1)
        && recorded == old(recorded) + (if !cancelled && IsThreat(result.verdict) then [result] else [])
    {
      cancelled := false;
      if !enabled {
        return ScanResult(Clean, [], "", 0, []), false;
      }
      if target.size > maxFileSize {
        return ScanResult(Clean, [], "", target.size, []), false;
      }
      attempts := attempts + 1;
      var found, run := RunLayers(target, cancelAt);
      if cancelAt.Some? && cancelAt.value < |layers| {
        errorCount := errorCount + 1;
        return ScanResult(ScanError, found, target.filename, target.size, run), true;
      }
      assert layers[..|layers|] == layers;
      var verdict := DetermineVerdict(found);
      result := ScanResult(verdict, found, target.filename, target.size, run);
      CountResult(verdict, target.size);
      if IsThreat(verdict) {
        RecordThreat(result);
      }
    }
  }
}
