/**
 * Concurrent scans of one engine. Each scan runs through its layers and then through separate
 * atomic updates of the shared counters and the threat log; steps of different scans interleave
 * in any order.
 */
module ScanProtocol {
  import opened Wrappers
  import opened Verdicts
  import opened Antivirus

  /** Where a scan stands, and which of its shared updates are still to come. */
  datatype Phase =
    | Looping(next: nat, found: seq<ThreatInfo>)
    | CountingTotal(result: ScanResult)
    | CountingVerdict(result: ScanResult)
    | Recording(result: ScanResult)
    | Done(result: ScanResult)
    | Cancelled

  datatype Scan = Scan(target: ScanTarget, phase: Phase)

  /** `recorded` lists the scans whose result went into the log, oldest first; the engine keeps no such list. */
  datatype World = World(
    scans: map<nat, Scan>,
    totalScanned: nat, threatsFound: nat, cleanFiles: nat, errorCount: nat,
    threatLog: seq<ScanResult>,
    recorded: seq<nat>)

  const START := World(map[], 0, 0, 0, 0, [], [])

  /** `Begin` starts a scan that passed the size check; `Advance` lets one scan take its next step. */
  datatype Step = Begin(id: nat, target: ScanTarget) | Advance(id: nat, cancelled: bool)

  function At(w: World, id: nat, target: ScanTarget, phase: Phase): World {
    w.(scans := w.scans[id := Scan(target, phase)])
  }

  ghost function Advanced(layers: seq<Layer>, w: World, id: nat, cancelled: bool): World
    requires id in w.scans
  {
    var target := w.scans[id].target;
    match w.scans[id].phase
    case Looping(next, found) =>
      if next >= |layers| then
        At(w, id, target, CountingTotal(
          ScanResult(VerdictOf(found), found, target.filename, target.size, Names(layers))))
      else if cancelled then At(w, id, target, Cancelled).(errorCount := w.errorCount + 1)
      else At(w, id, target, Looping(next + 1, found + Reported(layers[next], target)))
    case CountingTotal(r) =>
      At(w, id, target, CountingVerdict(r)).(totalScanned := w.totalScanned + 1)
    case CountingVerdict(r) =>
      (match r.verdict
       case Malware | Suspicious => At(w, id, target, Recording(r)).(threatsFound := w.threatsFound + 1)
       case Clean => At(w, id, target, Done(r)).(cleanFiles := w.cleanFiles + 1)
       case ScanError => At(w, id, target, Done(r)).(errorCount := w.errorCount + 1))
    case Recording(r) =>
      At(w, id, target, Done(r)).(threatLog := Logged(w.threatLog, r), recorded := w.recorded + [id])
    case Done(_) | Cancelled => w
  }

  /** A step; starting under a number in use and advancing an unknown scan do nothing. */
  ghost function Taken(layers: seq<Layer>, w: World, step: Step): World {
    match step
    case Begin(id, target) => if id in w.scans then w else At(w, id, target, Looping(0, []))
    case Advance(id, cancelled) => if id in w.scans then Advanced(layers, w, id, cancelled) else w
  }

  ghost function After(layers: seq<Layer>, steps: seq<Step>): World {
    if steps == [] then START else Taken(layers, After(layers, steps[..|steps| - 1]), steps[|steps| - 1])
  }

  ghost function Where(scans: map<nat, Scan>, p: Scan -> bool): set<nat> {
    set id | id in scans && p(scans[id])
  }

  predicate IsCounted(s: Scan) { s.phase.CountingVerdict? || s.phase.Recording? || s.phase.Done? }

  predicate IsThreatening(s: Scan) {
    (s.phase.Recording? || s.phase.Done?) && IsThreat(s.phase.result.verdict)
  }

  predicate IsClean(s: Scan) { s.phase.Done? && s.phase.result.verdict == Clean }

  predicate IsCancelled(s: Scan) { s.phase.Cancelled? }

  predicate IsLogged(s: Scan) { s.phase.Done? && IsThreat(s.phase.result.verdict) }

  /** What a scan has found is what its layers report. */
  ghost predicate Faithful(layers: seq<Layer>, s: Scan) {
    match s.phase
    case Looping(next, found) => next <= |layers| && found == Threats(layers[..next], s.target)
    case Cancelled => true
    case Recording(r) => r == Completed(layers, s.target) && IsThreat(r.verdict)
    case _ => s.phase.result == Completed(layers, s.target)
  }

  /** Every counter is the number of scans past its update. */
  ghost predicate Counts(w: World) {
    && w.totalScanned == |Where(w.scans, IsCounted)|
    && w.threatsFound == |Where(w.scans, IsThreatening)|
    && w.cleanFiles == |Where(w.scans, IsClean)|
    && w.errorCount == |Where(w.scans, IsCancelled)|
  }

  ghost predicate Distinct(ids: seq<nat>) {
    forall i, j :: 0 <= i < j < |ids| ==> ids[i] != ids[j]
  }

  ghost predicate AllLogged(scans: map<nat, Scan>, ids: seq<nat>) {
    forall k :: 0 <= k < |ids| ==> ids[k] in scans && IsLogged(scans[ids[k]])
  }

  ghost function Results(scans: map<nat, Scan>, ids: seq<nat>): seq<ScanResult>
    requires AllLogged(scans, ids)
  {
    seq(|ids|, i requires 0 <= i < |ids| => scans[ids[i]].phase.result)
  }

  /** Each threat was logged once, and the log is the newest part of what was logged. */
  ghost predicate LogKept(w: World) {
    && AllLogged(w.scans, w.recorded)
    && Distinct(w.recorded)
    && (forall id :: id in Where(w.scans, IsLogged) ==> id in w.recorded)
    && w.threatLog == Newest(Results(w.scans, w.recorded), MAX_THREAT_LOG)
  }

  ghost predicate Consistent(layers: seq<Layer>, w: World) {
    && (forall id :: id in w.scans ==> Faithful(layers, w.scans[id]))
    && Counts(w)
    && LogKept(w)
  }

  lemma WhereMoves(scans: map<nat, Scan>, id: nat, s: Scan, p: Scan -> bool)
    ensures |Where(scans[id := s], p)| == |Where(scans, p)|
              + (if p(s) then 1 else 0) - (if id in scans && p(scans[id]) then 1 else 0)
  {
    var before, after := Where(scans, p), Where(scans[id := s], p);
    if p(s) {
      assert after == before + {id};
    } else {
      assert after == before - {id};
    }
  }

  /** How a count changes when the scan `id` becomes `s`. */
  function Change(scans: map<nat, Scan>, id: nat, s: Scan, p: Scan -> bool): int {
    (if p(s) then 1 else 0) - (if id in scans && p(scans[id]) then 1 else 0)
  }

  /** Each step bumps exactly the counters whose phase it passes. */
  ghost predicate Bumps(w: World, w': World, id: nat, s': Scan) {
    && w'.scans == w.scans[id := s']
    && w'.totalScanned == w.totalScanned + Change(w.scans, id, s', IsCounted)
    && w'.threatsFound == w.threatsFound + Change(w.scans, id, s', IsThreatening)
    && w'.cleanFiles == w.cleanFiles + Change(w.scans, id, s', IsClean)
    && w'.errorCount == w.errorCount + Change(w.scans, id, s', IsCancelled)
  }

  /** Moving one scan moves every count by its own change. */
  lemma CountsMove(w: World, id: nat, s: Scan, w': World)
    requires Counts(w) && Bumps(w, w', id, s)
    ensures Counts(w')
  {
    WhereMoves(w.scans, id, s, IsCounted);
    WhereMoves(w.scans, id, s, IsThreatening);
    WhereMoves(w.scans, id, s, IsClean);
    WhereMoves(w.scans, id, s, IsCancelled);
  }

  lemma ThreatsNext(layers: seq<Layer>, n: nat, target: ScanTarget)
    requires n < |layers|
    ensures Threats(layers[..n + 1], target) == Threats(layers[..n], target) + Reported(layers[n], target)
  {
    assert layers[..n + 1][..n] == layers[..n];
  }

  lemma AdvanceFaithful(layers: seq<Layer>, w: World, id: nat, cancelled: bool)
    requires id in w.scans && Faithful(layers, w.scans[id])
    ensures Faithful(layers, Advanced(layers, w, id, cancelled).scans[id])
  {
    var s := w.scans[id];
    if s.phase.Looping? {
      if s.phase.next < |layers| {
        ThreatsNext(layers, s.phase.next, s.target);
      } else {
        assert layers[..s.phase.next] == layers;
      }
    }
  }

  lemma AdvanceBumps(layers: seq<Layer>, w: World, id: nat, cancelled: bool)
    requires id in w.scans && Faithful(layers, w.scans[id])
    ensures var w' := Advanced(layers, w, id, cancelled);
      w' == w || Bumps(w, w', id, w'.scans[id])
  {
    VerdictIsJoin(layers, w.scans[id].target);
  }

  lemma AdvanceCounts(layers: seq<Layer>, w: World, id: nat, cancelled: bool)
    requires id in w.scans && Faithful(layers, w.scans[id]) && Counts(w)
    ensures Counts(Advanced(layers, w, id, cancelled))
  {
    AdvanceBumps(layers, w, id, cancelled);
    var w' := Advanced(layers, w, id, cancelled);
    if w' != w {
      CountsMove(w, id, w'.scans[id], w');
    }
  }

  /** A scan that is not logged, before or after the step, leaves the log as it is. */
  lemma LogUnmoved(w: World, id: nat, s: Scan)
    requires LogKept(w) && !IsLogged(s) && (id in w.scans ==> !IsLogged(w.scans[id]))
    ensures LogKept(w.(scans := w.scans[id := s]))
  {
    var scans' := w.scans[id := s];
    assert Results(scans', w.recorded) == Results(w.scans, w.recorded);
  }

  /** What has been logged is not touched by another scan's step. */
  lemma ResultsGrow(scans: map<nat, Scan>, ids: seq<nat>, id: nat, s: Scan)
    requires AllLogged(scans, ids) && IsLogged(s) && id !in ids
    ensures AllLogged(scans[id := s], ids + [id])
    ensures Results(scans[id := s], ids + [id]) == Results(scans, ids) + [s.phase.result]
  {
  }

  lemma LogGrows(w: World, id: nat, s: Scan)
    requires LogKept(w) && IsLogged(s) && id in w.scans && !IsLogged(w.scans[id])
    ensures LogKept(w.(scans := w.scans[id := s], threatLog := Logged(w.threatLog, s.phase.result),
                       recorded := w.recorded + [id]))
  {
    var scans', recorded' := w.scans[id := s], w.recorded + [id];
    assert id !in w.recorded;
    ResultsGrow(w.scans, w.recorded, id, s);
    NewestOfAppended(Results(w.scans, w.recorded), s.phase.result, MAX_THREAT_LOG);
    forall i | i in Where(scans', IsLogged) ensures i in recorded' {
      if i != id {
        assert i in Where(w.scans, IsLogged);
      }
    }
  }

  lemma AdvanceLog(layers: seq<Layer>, w: World, id: nat, cancelled: bool)
    requires id in w.scans && Faithful(layers, w.scans[id]) && LogKept(w)
    ensures LogKept(Advanced(layers, w, id, cancelled))
  {
    VerdictIsJoin(layers, w.scans[id].target);
    var w' := Advanced(layers, w, id, cancelled);
    if w' != w {
      if w.scans[id].phase.Recording? {
        LogGrows(w, id, w'.scans[id]);
      } else {
        LogUnmoved(w, id, w'.scans[id]);
      }
    }
  }

  lemma AdvanceTouchesOne(layers: seq<Layer>, w: World, id: nat, cancelled: bool)
    requires id in w.scans
    ensures var w' := Advanced(layers, w, id, cancelled);
      w'.scans.Keys == w.scans.Keys && forall i :: i in w.scans && i != id ==> w'.scans[i] == w.scans[i]
  {
  }

  lemma StepConsistent(layers: seq<Layer>, w: World, step: Step)
    requires Consistent(layers, w)
    ensures Consistent(layers, Taken(layers, w, step))
  {
    match step
    case Begin(id, target) =>
      if id !in w.scans {
        var s := Scan(target, Looping(0, []));
        CountsMove(w, id, s, At(w, id, target, s.phase));
        LogUnmoved(w, id, s);
      }
    case Advance(id, cancelled) =>
      if id in w.scans {
        AdvanceTouchesOne(layers, w, id, cancelled);
        AdvanceFaithful(layers, w, id, cancelled);
        AdvanceCounts(layers, w, id, cancelled);
        AdvanceLog(layers, w, id, cancelled);
      }
  }

  lemma {:induction false} RunConsistent(layers: seq<Layer>, steps: seq<Step>)
    ensures Consistent(layers, After(layers, steps))
  {
    if steps == [] {
    } else {
      RunConsistent(layers, steps[..|steps| - 1]);
      StepConsistent(layers, After(layers, steps[..|steps| - 1]), steps[|steps| - 1]);
    }
  }

  /** No scan is under way. */
  ghost predicate Quiescent(w: World) {
    forall id :: id in w.scans ==> w.scans[id].phase.Done? || w.scans[id].phase.Cancelled?
  }

  lemma {:induction false} DistinctCount(ids: seq<nat>, s: set<nat>)
    requires Distinct(ids) && (forall id :: id in s <==> id in ids)
    ensures |s| == |ids|
  {
    if ids == [] {
    } else {
      var init, last := ids[..|ids| - 1], ids[|ids| - 1];
      assert ids == init + [last];
      assert last !in init;
      DistinctCount(init, s - {last});
    }
  }

  lemma PartitionCount(a: set<nat>, b: set<nat>, c: set<nat>)
    requires a !! b && a + b == c
    ensures |a| + |b| == |c|
  {
  }

  lemma CountedPartition(w: World)
    requires Quiescent(w)
    requires forall id :: id in w.scans && w.scans[id].phase.Done? ==> w.scans[id].phase.result.verdict != ScanError
    ensures |Where(w.scans, IsThreatening)| + |Where(w.scans, IsClean)| == |Where(w.scans, IsCounted)|
  {
    var a, b, c := Where(w.scans, IsThreatening), Where(w.scans, IsClean), Where(w.scans, IsCounted);
    forall id ensures id in c <==> id in a || id in b {
      if id in w.scans {
        var phase := w.scans[id].phase;
        assert phase.Done? || phase.Cancelled?;
      }
    }
    PartitionCount(a, b, c);
  }

  lemma ScansPartition(w: World)
    requires Quiescent(w)
    ensures |Where(w.scans, IsCounted)| + |Where(w.scans, IsCancelled)| == |w.scans|
  {
    var a, b := Where(w.scans, IsCounted), Where(w.scans, IsCancelled);
    forall id ensures id in w.scans.Keys <==> id in a || id in b {
    }
    PartitionCount(a, b, w.scans.Keys);
  }

  lemma QuiescentPartition(w: World)
    requires Quiescent(w)
    requires forall id :: id in w.scans && w.scans[id].phase.Done? ==> w.scans[id].phase.result.verdict != ScanError
    ensures Where(w.scans, IsThreatening) == Where(w.scans, IsLogged)
    ensures |Where(w.scans, IsThreatening)| + |Where(w.scans, IsClean)| == |Where(w.scans, IsCounted)|
    ensures |Where(w.scans, IsCounted)| + |Where(w.scans, IsCancelled)| == |w.scans|
  {
    CountedPartition(w);
    ScansPartition(w);
  }

  /**
   * Whenever no scan is under way, whatever the interleaving that led there: every scan is counted
   * once as a threat, as clean or as cancelled; each threat was logged once and the log holds the
   * newest of them; and every completed scan has the join of its layers' verdicts.
   */
  lemma QuiescentAccounts(layers: seq<Layer>, steps: seq<Step>)
    requires Quiescent(After(layers, steps))
    ensures var w := After(layers, steps);
      && w.totalScanned == w.threatsFound + w.cleanFiles
      && |w.scans| == w.totalScanned + w.errorCount
      && |w.recorded| == w.threatsFound
      && LogKept(w)
      && forall id :: id in w.scans && w.scans[id].phase.Done? ==>
           && w.scans[id].phase.result == Completed(layers, w.scans[id].target)
           && w.scans[id].phase.result.verdict == JoinOfLayers(layers, w.scans[id].target)
  {
    var w := After(layers, steps);
    RunConsistent(layers, steps);
    forall id | id in w.scans && w.scans[id].phase.Done?
      ensures w.scans[id].phase.result == Completed(layers, w.scans[id].target)
      ensures w.scans[id].phase.result.verdict == JoinOfLayers(layers, w.scans[id].target) != ScanError
    {
      assert Faithful(layers, w.scans[id]);
      VerdictIsJoin(layers, w.scans[id].target);
    }
    QuiescentPartition(w);
    DistinctCount(w.recorded, Where(w.scans, IsLogged));
  }

  function Advances(id: nat, n: nat): seq<Step> {
    seq(n, _ => Advance(id, false))
  }

  lemma OneMoreAdvance(layers: seq<Layer>, steps: seq<Step>, id: nat, n: nat)
    requires n > 0
    ensures After(layers, steps + Advances(id, n))
         == Taken(layers, After(layers, steps + Advances(id, n - 1)), Advance(id, false))
  {
    assert (steps + Advances(id, n))[..|steps| + n - 1] == steps + Advances(id, n - 1);
  }

  lemma Overwritten(w: World, id: nat, target: ScanTarget, before: Phase, after: Phase)
    ensures At(At(w, id, target, before), id, target, after) == At(w, id, target, after)
  {
    assert w.scans[id := Scan(target, before)][id := Scan(target, after)] == w.scans[id := Scan(target, after)];
  }

  lemma {:induction false} LoopsUninterrupted(layers: seq<Layer>, steps: seq<Step>, w: World, id: nat,
                                              target: ScanTarget, n: nat)
    requires n <= |layers|
    requires After(layers, steps) == At(w, id, target, Looping(0, []))
    ensures After(layers, steps + Advances(id, n)) == At(w, id, target, Looping(n, Threats(layers[..n], target)))
  {
    if n == 0 {
      assert steps + Advances(id, 0) == steps;
    } else {
      LoopsUninterrupted(layers, steps, w, id, target, n - 1);
      OneMoreAdvance(layers, steps, id, n);
      ThreatsNext(layers, n - 1, target);
      Overwritten(w, id, target, Looping(n - 1, Threats(layers[..n - 1], target)),
                  Looping(n, Threats(layers[..n], target)));
    }
  }

  function Shared(w: World): Books {
    Books(w.totalScanned, w.threatsFound, w.cleanFiles, w.errorCount, w.threatLog)
  }

  function WithBooks(w: World, b: Books): World {
    w.(totalScanned := b.totalScanned, threatsFound := b.threatsFound, cleanFiles := b.cleanFiles,
       errorCount := b.errorCount, threatLog := b.threatLog)
  }

  /** What a completed scan with the given result does, all in one: it enters the result into the books. */
  ghost function Accounted(w: World, id: nat, target: ScanTarget, r: ScanResult): World {
    WithBooks(At(w, id, target, Done(r)), Entered(Shared(w), r))
      .(recorded := if IsThreat(r.verdict) then w.recorded + [id] else w.recorded)
  }

  ghost function Advanced2(layers: seq<Layer>, w: World, id: nat): World {
    Taken(layers, Taken(layers, w, Advance(id, false)), Advance(id, false))
  }

  lemma CountsUninterrupted(layers: seq<Layer>, w: World, id: nat, target: ScanTarget)
    ensures Advanced2(layers, At(w, id, target, Looping(|layers|, Threats(layers, target))), id)
         == At(w, id, target, CountingVerdict(Completed(layers, target))).(totalScanned := w.totalScanned + 1)
  {
    var r := Completed(layers, target);
    Overwritten(w, id, target, Looping(|layers|, Threats(layers, target)), CountingTotal(r));
    Overwritten(w, id, target, CountingTotal(r), CountingVerdict(r));
  }

  lemma RecordsUninterrupted(layers: seq<Layer>, w: World, id: nat, target: ScanTarget, r: ScanResult)
    requires r.verdict != ScanError
    ensures Advanced2(layers, At(w, id, target, CountingVerdict(r)).(totalScanned := w.totalScanned + 1), id)
         == Accounted(w, id, target, r)
  {
    Overwritten(w, id, target, CountingVerdict(r), Recording(r));
    Overwritten(w, id, target, CountingVerdict(r), Done(r));
    Overwritten(w, id, target, Recording(r), Done(r));
  }

  /**
   * A scan whose steps follow one another has, from any state of the others, the result and the effect
   * on the books that the engine's Scan has: `Completed` and `Entered`.
   */
  lemma UninterruptedScan(layers: seq<Layer>, steps: seq<Step>, id: nat, target: ScanTarget)
    requires id !in After(layers, steps).scans
    ensures After(layers, steps + [Begin(id, target)] + Advances(id, |layers| + 4))
         == Accounted(After(layers, steps), id, target, Completed(layers, target))
  {
    var n, w := |layers|, After(layers, steps);
    var begun := steps + [Begin(id, target)];
    assert begun[..|steps|] == steps;
    LoopsUninterrupted(layers, begun, w, id, target, n);
    assert layers[..n] == layers;
    CountsUninterrupted(layers, w, id, target);
    VerdictIsJoin(layers, target);
    RecordsUninterrupted(layers, w, id, target, Completed(layers, target));
    OneMoreAdvance(layers, begun, id, n + 1);
    OneMoreAdvance(layers, begun, id, n + 2);
    OneMoreAdvance(layers, begun, id, n + 3);
    OneMoreAdvance(layers, begun, id, n + 4);
  }

  /** So has one that sees its cancellation before the layer `at`: `Failed`, and nothing else. */
  lemma UninterruptedCancel(layers: seq<Layer>, steps: seq<Step>, id: nat, target: ScanTarget, at: nat)
    requires id !in After(layers, steps).scans && at < |layers|
    ensures var w := After(layers, steps);
      After(layers, steps + [Begin(id, target)] + Advances(id, at) + [Advance(id, true)])
        == WithBooks(At(w, id, target, Cancelled), Failed(Shared(w)))
  {
    var w, begun := After(layers, steps), steps + [Begin(id, target)];
    assert begun[..|steps|] == steps;
    LoopsUninterrupted(layers, begun, w, id, target, at);
    var looped := begun + Advances(id, at);
    assert (looped + [Advance(id, true)])[..|looped|] == looped;
    Overwritten(w, id, target, Looping(at, Threats(layers[..at], target)), Cancelled);
  }
}
