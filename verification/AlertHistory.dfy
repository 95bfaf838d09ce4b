/**
 * What a rule's state means: the state machine agrees with a declarative reading of the
 * history of its evaluations.
 */
module AlertHistory {
  import opened Wrappers
  import opened AlertModel
  import opened AlertRuns

  /** One entry per evaluation made and per reconcile that found the rule disabled or silenced. */
  datatype Event =
    | Evaluation(at: nat, answer: Answer, hold: int)
    | WasDisabled(at: nat)
    | WasSilenced(at: nat)

  predicate IsTrue(e: Event) { e.Evaluation? && e.answer.Met? }

  /** An event that ends a stretch of true evaluations; failed evaluations do not. */
  predicate Breaks(e: Event) { e.WasDisabled? || (e.Evaluation? && e.answer.NotMet?) }

  /** The time of the latest evaluation, failed ones included. */
  function LastEvaluation(log: seq<Event>): Option<nat> {
    if log == [] then None
    else if log[|log| - 1].Evaluation? then Some(log[|log| - 1].at)
    else LastEvaluation(log[..|log| - 1])
  }

  function EvaluationsIn(log: seq<Event>): nat {
    if log == [] then 0
    else EvaluationsIn(log[..|log| - 1]) + if log[|log| - 1].Evaluation? then 1 else 0
  }

  /** Silenced without an end, or up to and including its end. */
  predicate InSilence(spec: RuleSpec, now: nat) {
    spec.silenced && (spec.silenceUntil.None? || now <= spec.silenceUntil.value)
  }

  /** The distance evaluations keep: a minute unless the spec says otherwise. */
  function Distance(spec: RuleSpec): int {
    if spec.evalInterval != 0 then spec.evalInterval else 60_000_000_000
  }

  /** The history, defined without the rule's status: an evaluation is made when one is due. */
  function Recorded(log: seq<Event>, step: Step): seq<Event> {
    if !step.Reconcile? then log
    else if !step.spec.enabled then log + [WasDisabled(step.now)]
    else if InSilence(step.spec, step.now) then log + [WasSilenced(step.now)]
    else
      var last := LastEvaluation(log);
      if last.Some? && step.now < last.value + Distance(step.spec) then log
      else log + [Evaluation(step.now, step.answer, step.spec.forDuration)]
  }

  function History(steps: seq<Step>): seq<Event> {
    if steps == [] then [] else Recorded(History(steps[..|steps| - 1]), steps[|steps| - 1])
  }

  /** From index `f` on, the history starts with a true evaluation and nothing breaks it. */
  ghost predicate HoldsFrom(log: seq<Event>, f: int) {
    && 0 <= f < |log|
    && IsTrue(log[f])
    && forall j :: f <= j < |log| ==> !Breaks(log[j])
  }

  /** At evaluation `g`, which was true, the condition had held since `f` for the duration then in force. */
  ghost predicate HeldLongEnough(log: seq<Event>, f: int, g: int) {
    && 0 <= f <= g < |log|
    && IsTrue(log[g])
    && log[g].at - log[f].at >= log[g].hold
  }

  ghost predicate ConditionHolds(log: seq<Event>) {
    exists f :: HoldsFrom(log, f)
  }

  ghost predicate ShouldFire(log: seq<Event>) {
    exists f, g :: HoldsFrom(log, f) && HeldLongEnough(log, f, g)
  }

  /** The rule was seen silenced and has not been seen disabled since. */
  ghost predicate Stuck(log: seq<Event>) {
    exists i :: 0 <= i < |log| && log[i].WasSilenced? && forall j :: i < j < |log| ==> !log[j].WasDisabled?
  }

  ghost predicate Chronological(log: seq<Event>, now: nat) {
    && (forall i, j :: 0 <= i <= j < |log| ==> log[i].at <= log[j].at)
    && (forall i :: 0 <= i < |log| ==> log[i].at <= now)
  }

  /** `f` is where the current stretch of true evaluations started. */
  ghost predicate FirstTrue(log: seq<Event>, f: int) {
    HoldsFrom(log, f) && forall k :: HoldsFrom(log, k) ==> f <= k
  }

  /** The status says of the history exactly what the declarative reading says. */
  ghost predicate Agrees(s: RuleStatus, log: seq<Event>) {
    && s.lastEvalAt == LastEvaluation(log)
    && s.evalCount == EvaluationsIn(log)
    && (s.state == Silenced <==> Stuck(log))
    && (!Stuck(log) ==>
          && (s.state == Firing <==> ShouldFire(log))
          && (s.state == Pending <==> ConditionHolds(log) && !ShouldFire(log))
          && (s.state == Pending ==> exists f :: FirstTrue(log, f) && s.pendingSince == Some(log[f].at)))
  }

  lemma HoldsFromExtends(log: seq<Event>, e: Event, f: int)
    requires 0 <= f < |log|
    ensures HoldsFrom(log + [e], f) <==> HoldsFrom(log, f) && !Breaks(e)
  {
    var log' := log + [e];
    assert forall j :: 0 <= j < |log| ==> log'[j] == log[j];
    assert log'[|log|] == e;
    if HoldsFrom(log', f) {
      forall j | f <= j < |log| ensures !Breaks(log[j]) { assert !Breaks(log'[j]); }
      assert !Breaks(log'[|log|]);
    }
  }

  lemma StuckExtends(log: seq<Event>, e: Event)
    ensures Stuck(log + [e]) <==> e.WasSilenced? || (Stuck(log) && !e.WasDisabled?)
  {
    var log' := log + [e];
    if e.WasSilenced? {
      assert log'[|log|].WasSilenced?;
    }
    if Stuck(log) && !e.WasDisabled? {
      var i :| 0 <= i < |log| && log[i].WasSilenced? && forall j :: i < j < |log| ==> !log[j].WasDisabled?;
      assert log'[i].WasSilenced? && forall j :: i < j < |log'| ==> !log'[j].WasDisabled?;
    }
    if Stuck(log') && !e.WasSilenced? {
      var i :| 0 <= i < |log'| && log'[i].WasSilenced? && forall j :: i < j < |log'| ==> !log'[j].WasDisabled?;
      assert i < |log| && log[i].WasSilenced?;
      assert !log'[|log|].WasDisabled?;
      forall j | i < j < |log| ensures !log[j].WasDisabled? { assert !log'[j].WasDisabled?; }
    }
  }

  /** How one more event changes what should be: it breaks, keeps or extends the stretch. */
  lemma StretchExtends(log: seq<Event>, e: Event)
    requires Chronological(log, e.at)
    ensures Breaks(e) ==> !ConditionHolds(log + [e]) && !ShouldFire(log + [e])
    ensures !Breaks(e) && !IsTrue(e) ==>
              && (ConditionHolds(log + [e]) <==> ConditionHolds(log))
              && (ShouldFire(log + [e]) <==> ShouldFire(log))
    ensures IsTrue(e) ==> ConditionHolds(log + [e])
    ensures IsTrue(e) && !ConditionHolds(log) ==> (ShouldFire(log + [e]) <==> e.hold <= 0)
    ensures IsTrue(e) && ConditionHolds(log) ==>
              forall f :: FirstTrue(log, f) ==>
                (ShouldFire(log + [e]) <==> ShouldFire(log) || e.at - log[f].at >= e.hold)
  {
    var log' := log + [e];
    var n := |log|;
    assert log'[n] == e;
    forall f | 0 <= f < n ensures HoldsFrom(log', f) <==> HoldsFrom(log, f) && !Breaks(e) {
      HoldsFromExtends(log, e, f);
    }
    assert HoldsFrom(log', n) <==> IsTrue(e);
    if ConditionHolds(log) && !Breaks(e) {
      var f :| HoldsFrom(log, f);
      assert HoldsFrom(log', f);
    }
    if ShouldFire(log) && !Breaks(e) {
      var f, g :| HoldsFrom(log, f) && HeldLongEnough(log, f, g);
      assert HoldsFrom(log', f) && HeldLongEnough(log', f, g);
    }
    if ShouldFire(log') {
      var f, g :| HoldsFrom(log', f) && HeldLongEnough(log', f, g);
      assert !Breaks(log'[n]);
      if g < n {
        assert HoldsFrom(log, f) && HeldLongEnough(log, f, g);
      }
    }
    if IsTrue(e) && e.hold <= 0 {
      assert HoldsFrom(log', n) && HeldLongEnough(log', n, n);
    }
    if IsTrue(e) && ConditionHolds(log) {
      forall f | FirstTrue(log, f)
        ensures ShouldFire(log') <==> ShouldFire(log) || e.at - log[f].at >= e.hold
      {
        if e.at - log[f].at >= e.hold {
          assert HoldsFrom(log', f) && HeldLongEnough(log', f, n);
        }
      }
    }
  }

  /** The start of the stretch survives an unbroken extension, and is the new event if there was none. */
  lemma FirstTrueExtends(log: seq<Event>, e: Event)
    requires !Breaks(e)
    ensures forall f :: FirstTrue(log, f) ==> FirstTrue(log + [e], f) && (log + [e])[f] == log[f]
    ensures IsTrue(e) && !ConditionHolds(log) ==> FirstTrue(log + [e], |log|)
  {
    var log' := log + [e];
    forall f | 0 <= f < |log| ensures HoldsFrom(log', f) <==> HoldsFrom(log, f) {
      HoldsFromExtends(log, e, f);
    }
  }

  /** What an evaluation does to the state and the pending time. */
  ghost predicate EvaluatedTo(s: RuleStatus, s': RuleStatus, e: Event) {
    && e.Evaluation?
    && s'.lastEvalAt == Some(e.at)
    && s'.evalCount == s.evalCount + 1
    && (s.state == Silenced <==> s'.state == Silenced)
    && (s.state != Firing ==> s'.lastResolvedAt == s.lastResolvedAt)
    && match e.answer
       case Error(_) => s'.state == s.state && s'.pendingSince == s.pendingSince
       case NotMet =>
         && (s.state == Firing ==> s'.state == Resolved && s'.lastResolvedAt == Some(e.at))
         && (s.state == Pending ==> s'.state == Inactive && s'.pendingSince.None?)
         && (s.state in {Unset, Inactive, Resolved} ==> s'.state == s.state)
       case Met(_) =>
         match s.state
         case Silenced => true
         case Firing => s'.state == Firing
         case Pending =>
           if s.pendingSince.Some? && e.at - s.pendingSince.value >= e.hold
           then s'.state == Firing
           else s'.state == Pending && s'.pendingSince == s.pendingSince
         case _ =>
           if e.hold > 0
           then s'.state == Pending && s'.pendingSince == Some(e.at)
           else s'.state == Firing
  }

  lemma EvaluatedState(env: Env, spec: RuleSpec, w: World, now: nat, answer: Answer)
    ensures EvaluatedTo(w.status, Evaluated(env, spec, w, now, answer).status,
                        Evaluation(now, answer, spec.forDuration))
  {
  }

  lemma AgreesWithMuted(s: RuleStatus, s': RuleStatus, log: seq<Event>, e: Event)
    requires Agrees(s, log) && Chronological(log, e.at)
    requires (e.WasDisabled? && s' == s.(state := Inactive)) || (e.WasSilenced? && s' == s.(state := Silenced))
    ensures Agrees(s', log + [e])
  {
    assert (log + [e])[..|log|] == log;
    StuckExtends(log, e);
    StretchExtends(log, e);
  }

  lemma AgreesWithTrue(s: RuleStatus, s': RuleStatus, log: seq<Event>, e: Event)
    requires Agrees(s, log) && Chronological(log, e.at) && !Stuck(log)
    requires EvaluatedTo(s, s', e) && IsTrue(e)
    ensures s'.state == Firing <==> ShouldFire(log + [e])
    ensures s'.state == Pending <==> !ShouldFire(log + [e])
    ensures s'.state == Pending ==>
              exists f :: FirstTrue(log + [e], f) && s'.pendingSince == Some((log + [e])[f].at)
  {
    StretchExtends(log, e);
    FirstTrueExtends(log, e);
    if s.state == Pending {
      var f :| FirstTrue(log, f) && s.pendingSince == Some(log[f].at);
      assert FirstTrue(log + [e], f) && (log + [e])[f] == log[f];
    } else if s.state == Firing {
      var f, g :| HoldsFrom(log, f) && HeldLongEnough(log, f, g);
      assert HoldsFrom(log + [e], f) by { HoldsFromExtends(log, e, f); }
      assert HeldLongEnough(log + [e], f, g);
    } else {
      assert !ConditionHolds(log);
      assert FirstTrue(log + [e], |log|) && (log + [e])[|log|] == e;
    }
  }

  lemma AgreesWithEvaluation(s: RuleStatus, s': RuleStatus, log: seq<Event>, e: Event)
    requires Agrees(s, log) && Chronological(log, e.at)
    requires EvaluatedTo(s, s', e)
    ensures Agrees(s', log + [e])
  {
    assert (log + [e])[..|log|] == log;
    StuckExtends(log, e);
    if !Stuck(log) {
      StretchExtends(log, e);
      if IsTrue(e) {
        AgreesWithTrue(s, s', log, e);
      } else if !Breaks(e) {
        FirstTrueExtends(log, e);
      }
    }
  }

  lemma AgreesWithReconcile(rule: string, w: World, log: seq<Event>, step: Step)
    requires step.Reconcile?
    requires Agrees(w.status, log) && Chronological(log, step.now)
    ensures Agrees(Apply(rule, w, step).status, Recorded(log, step))
  {
    if !step.spec.enabled {
      AgreesWithMuted(w.status, w.status.(state := Inactive), log, WasDisabled(step.now));
    } else if InSilence(step.spec, step.now) {
      AgreesWithMuted(w.status, w.status.(state := Silenced), log, WasSilenced(step.now));
    } else {
      var log' := Recorded(log, step);
      if log' != log {
        EvaluatedState(Env(rule, step.directory), step.spec, w, step.now, step.answer);
        AgreesWithEvaluation(w.status, Apply(rule, w, step).status, log, log'[|log|]);
      }
    }
  }

  lemma RecordedChronological(log: seq<Event>, step: Step, before: nat)
    requires Chronological(log, before) && before <= step.now
    ensures Chronological(Recorded(log, step), step.now)
  {
  }

  lemma {:induction false} HistoryChronological(steps: seq<Step>, now: nat)
    requires ClockMonotone(steps)
    requires forall i :: 0 <= i < |steps| ==> steps[i].now <= now
    ensures Chronological(History(steps), now)
  {
    if steps == [] {
    } else {
      var last := steps[|steps| - 1];
      HistoryChronological(steps[..|steps| - 1], last.now);
      RecordedChronological(History(steps[..|steps| - 1]), last, last.now);
    }
  }

  /**
   * Over every run from a fresh rule, with any edits, disabling, silencing and manual steps in
   * between, the rule fires exactly when its history says the condition has held long enough.
   */
  lemma {:induction false} StateMatchesHistory(rule: string, steps: seq<Step>)
    requires ClockMonotone(steps)
    ensures Agrees(Exec(rule, steps).status, History(steps))
  {
    if steps == [] {
    } else {
      var init, last := steps[..|steps| - 1], steps[|steps| - 1];
      StateMatchesHistory(rule, init);
      HistoryChronological(init, last.now);
      if last.Reconcile? {
        AgreesWithReconcile(rule, Exec(rule, init), History(init), last);
      }
    }
  }

  /** At `i` a false evaluation ended a firing, and only evaluations that were not true followed. */
  ghost predicate ResolvedAt(log: seq<Event>, i: int) {
    && 0 <= i < |log|
    && log[i].Evaluation? && log[i].answer.NotMet?
    && ShouldFire(log[..i])
    && forall j :: i < j < |log| ==> log[j].Evaluation? && !IsTrue(log[j])
  }

  /** Nothing but evaluations that were not true. */
  ghost predicate Untouched(log: seq<Event>) {
    forall j :: 0 <= j < |log| ==> log[j].Evaluation? && !IsTrue(log[j])
  }

  ghost predicate WasResolved(log: seq<Event>) {
    exists i :: ResolvedAt(log, i)
  }

  /** The quiet states: never active, resolved, and otherwise inactive. */
  ghost predicate QuietAgrees(s: RuleStatus, log: seq<Event>) {
    && (s.state == Unset <==> Untouched(log))
    && (!Stuck(log) ==> (s.state == Resolved <==> WasResolved(log)))
    && (s.state == Resolved ==> forall i :: ResolvedAt(log, i) ==> s.lastResolvedAt == Some(log[i].at))
  }

  lemma ResolvedAtExtends(log: seq<Event>, e: Event, i: int)
    ensures ResolvedAt(log + [e], i)
       <==> if i == |log| then e.Evaluation? && e.answer.NotMet? && ShouldFire(log)
            else ResolvedAt(log, i) && e.Evaluation? && !IsTrue(e)
  {
    var log' := log + [e];
    if 0 <= i <= |log| {
      assert log'[..i] == log[..i];
      assert i == |log| ==> log[..i] == log;
      assert log'[|log|] == e;
      if i < |log| && ResolvedAt(log', i) {
        forall j | i < j < |log| ensures log[j].Evaluation? && !IsTrue(log[j]) { assert log'[j] == log[j]; }
      }
    }
  }

  lemma WasResolvedExtends(log: seq<Event>, e: Event)
    ensures WasResolved(log + [e])
       <==> || (e.Evaluation? && e.answer.NotMet? && ShouldFire(log))
            || (WasResolved(log) && e.Evaluation? && !IsTrue(e))
  {
    var log' := log + [e];
    ResolvedAtExtends(log, e, |log|);
    if WasResolved(log) && e.Evaluation? && !IsTrue(e) {
      var i :| ResolvedAt(log, i);
      ResolvedAtExtends(log, e, i);
    }
    if WasResolved(log') {
      var i :| ResolvedAt(log', i);
      ResolvedAtExtends(log, e, i);
    }
  }

  /** What was resolved is not firing: its stretch is broken. */
  lemma ResolvedIsQuiet(log: seq<Event>, i: int)
    requires ResolvedAt(log, i)
    ensures !ShouldFire(log) && !ConditionHolds(log)
  {
    assert Breaks(log[i]);
  }

  lemma QuietWithEvaluation(s: RuleStatus, s': RuleStatus, log: seq<Event>, e: Event)
    requires Agrees(s, log) && QuietAgrees(s, log) && EvaluatedTo(s, s', e)
    requires Agrees(s', log + [e])
    ensures QuietAgrees(s', log + [e])
  {
    var log' := log + [e];
    StuckExtends(log, e);
    WasResolvedExtends(log, e);
    assert Untouched(log') <==> Untouched(log) && !IsTrue(e) by {
      assert log'[|log|] == e;
      assert forall j :: 0 <= j < |log| ==> log'[j] == log[j];
    }
    forall i | s'.state == Resolved && ResolvedAt(log', i) ensures s'.lastResolvedAt == Some(log'[i].at) {
      ResolvedAtExtends(log, e, i);
      if i < |log| {
        ResolvedIsQuiet(log, i);
        assert log'[i] == log[i];
      }
    }
  }

  lemma QuietWithMuted(s: RuleStatus, s': RuleStatus, log: seq<Event>, e: Event)
    requires (e.WasDisabled? && s' == s.(state := Inactive)) || (e.WasSilenced? && s' == s.(state := Silenced))
    ensures QuietAgrees(s', log + [e])
  {
    var log' := log + [e];
    assert log'[|log|] == e;
    WasResolvedExtends(log, e);
    StuckExtends(log, e);
  }

  lemma QuietWithReconcile(rule: string, w: World, log: seq<Event>, step: Step)
    requires step.Reconcile? && Agrees(w.status, log) && QuietAgrees(w.status, log)
    requires Agrees(Apply(rule, w, step).status, Recorded(log, step))
    ensures QuietAgrees(Apply(rule, w, step).status, Recorded(log, step))
  {
    var s, s' := w.status, Apply(rule, w, step).status;
    if !step.spec.enabled {
      QuietWithMuted(s, s', log, WasDisabled(step.now));
    } else if InSilence(step.spec, step.now) {
      QuietWithMuted(s, s', log, WasSilenced(step.now));
    } else if Recorded(log, step) != log {
      EvaluatedState(Env(rule, step.directory), step.spec, w, step.now, step.answer);
      QuietWithEvaluation(s, s', log, Evaluation(step.now, step.answer, step.spec.forDuration));
    }
  }

  /**
   * The quiet states over every run: unset before anything but false or failed evaluations, resolved
   * since the false evaluation that ended a firing, whose time it keeps, and otherwise inactive.
   */
  lemma {:induction false} QuietStateMatchesHistory(rule: string, steps: seq<Step>)
    requires ClockMonotone(steps)
    ensures QuietAgrees(Exec(rule, steps).status, History(steps))
  {
    if steps == [] {
    } else {
      var init, step := steps[..|steps| - 1], steps[|steps| - 1];
      QuietStateMatchesHistory(rule, init);
      StateMatchesHistory(rule, init);
      StateMatchesHistory(rule, steps);
      if step.Reconcile? {
        QuietWithReconcile(rule, Exec(rule, init), History(init), step);
      }
    }
  }

  lemma FiringStepTakesHold(rule: string, w: World, step: Step)
    requires w.status.state == Pending && Apply(rule, w, step).status.state == Firing
    ensures step.Reconcile? && w.status.pendingSince.Some?
    ensures step.now - w.status.pendingSince.value >= step.spec.forDuration
  {
    if step.Reconcile? && !Muted(step.spec, step.now) && !Gated(w.status, step.spec, step.now) {
      EvaluatedState(Env(rule, step.directory), step.spec, w, step.now, step.answer);
    }
  }

  /**
   * Hold soundness: a rule that goes from pending to firing has been pending for the duration in
   * force, and it became pending at the start of a stretch of evaluations none of which was false.
   */
  lemma PendingFiresAfterHold(rule: string, steps: seq<Step>, last: Step)
    requires ClockMonotone(steps)
    requires Exec(rule, steps).status.state == Pending
    requires Apply(rule, Exec(rule, steps), last).status.state == Firing
    ensures var since := Exec(rule, steps).status.pendingSince;
      && last.Reconcile? && since.Some?
      && last.now - since.value >= last.spec.forDuration
      && exists f :: FirstTrue(History(steps), f) && History(steps)[f].at == since.value
  {
    StateMatchesHistory(rule, steps);
    FiringStepTakesHold(rule, Exec(rule, steps), last);
    assert !Stuck(History(steps));
  }

  function FirstEvaluation(log: seq<Event>): Option<nat> {
    if log == [] then None
    else
      var first := FirstEvaluation(log[..|log| - 1]);
      if first.None? && log[|log| - 1].Evaluation? then Some(log[|log| - 1].at) else first
  }

  ghost predicate Spaced(log: seq<Event>, i: nat) {
    var n, last, first := EvaluationsIn(log), LastEvaluation(log), FirstEvaluation(log);
    if n == 0 then last.None? && first.None?
    else last.Some? && first.Some? && (n - 1) * i <= last.value - first.value
  }

  lemma SpacedStep(log: seq<Event>, step: Step, i: nat)
    requires Spaced(log, i) && IntervalAtLeast(step, i)
    ensures Spaced(Recorded(log, step), i)
  {
    var log' := Recorded(log, step);
    if log' != log {
      assert log'[..|log|] == log;
      var n := EvaluationsIn(log);
      assert n > 0 ==> (n - 1) * i + i == n * i;
    }
  }

  lemma {:induction false} HistorySpaced(steps: seq<Step>, i: nat)
    requires IntervalsAtLeast(steps, i)
    ensures Spaced(History(steps), i)
  {
    if steps == [] {
    } else {
      HistorySpaced(steps[..|steps| - 1], i);
      SpacedStep(History(steps[..|steps| - 1]), steps[|steps| - 1], i);
    }
  }

  /** Evaluations are at least the smallest interval in force apart, failed ones included. */
  lemma EvaluationRate(rule: string, steps: seq<Step>, i: nat)
    requires ClockMonotone(steps) && IntervalsAtLeast(steps, i)
    ensures var s, first := Exec(rule, steps).status, FirstEvaluation(History(steps));
      if s.evalCount == 0 then s.lastEvalAt.None? && first.None?
      else s.lastEvalAt.Some? && first.Some? && (s.evalCount - 1) * i <= s.lastEvalAt.value - first.value
  {
    StateMatchesHistory(rule, steps);
    HistorySpaced(steps, i);
  }

  /** The condition list a history leaves: the latest failed evaluation, if there was one. */
  function LatestFailure(log: seq<Event>): seq<Condition> {
    if log == [] then []
    else
      match log[|log| - 1]
      case Evaluation(at, Error(message), _) => [Condition("Evaluated", "False", "EvalError", message, at)]
      case _ => LatestFailure(log[..|log| - 1])
  }

  lemma {:induction false} LatestFailureShape(log: seq<Event>)
    ensures var c := LatestFailure(log); c == [] || (|c| == 1 && c[0].kind == "Evaluated")
  {
    if log == [] {
    } else {
      LatestFailureShape(log[..|log| - 1]);
    }
  }

  lemma LatestFailureExtends(log: seq<Event>, e: Event)
    ensures LatestFailure(log + [e])
         == if e.Evaluation? && e.answer.Error?
            then [Condition("Evaluated", "False", "EvalError", e.answer.message, e.at)] else LatestFailure(log)
  {
    assert (log + [e])[..|log|] == log;
  }

  lemma EvaluatedConditions(env: Env, spec: RuleSpec, w: World, now: nat, answer: Answer)
    requires w.status.conditions == [] || (|w.status.conditions| == 1 && w.status.conditions[0].kind == "Evaluated")
    ensures Evaluated(env, spec, w, now, answer).status.conditions
         == if answer.Error? then [Condition("Evaluated", "False", "EvalError", answer.message, now)]
            else w.status.conditions
  {
  }

  lemma StepReportsFailure(rule: string, w: World, log: seq<Event>, step: Step)
    requires w.status.lastEvalAt == LastEvaluation(log) && w.status.conditions == LatestFailure(log)
    ensures Apply(rule, w, step).status.conditions == LatestFailure(Recorded(log, step))
  {
    LatestFailureShape(log);
    if Recorded(log, step) != log {
      LatestFailureExtends(log, Recorded(log, step)[|log|]);
      if Recorded(log, step)[|log|].Evaluation? {
        EvaluatedConditions(Env(rule, step.directory), step.spec, w, step.now, step.answer);
      }
    }
  }

  /** A rule carries one condition at most: its latest failed evaluation, kept through later good ones. */
  lemma {:induction false} ConditionIsLatestFailure(rule: string, steps: seq<Step>)
    requires ClockMonotone(steps)
    ensures Exec(rule, steps).status.conditions == LatestFailure(History(steps))
  {
    if steps == [] {
    } else {
      var init := steps[..|steps| - 1];
      ConditionIsLatestFailure(rule, init);
      StateMatchesHistory(rule, init);
      StepReportsFailure(rule, Exec(rule, init), History(init), steps[|steps| - 1]);
    }
  }

  /**
   * What a reconcile does, by the fields of the spec: a disabled rule waits for an hour; a silence
   * holds up to its end and is looked at every five minutes; and otherwise, the silence being
   * lifted, an evaluation is made once the interval has passed, and counted at its time.
   */
  lemma ReconcileDecides(env: Env, spec: RuleSpec, w: World, now: nat, answer: Answer, jitter: nat)
    ensures var o, s := Reconciled(env, spec, w, now, answer, jitter), w.status;
      if !spec.enabled then
        o == Outcome(w.(status := s.(state := Inactive)), spec, 3600_000_000_000)
      else if spec.silenced && (spec.silenceUntil.None? || now <= spec.silenceUntil.value) then
        o == Outcome(w.(status := s.(state := Silenced)), spec, 300_000_000_000)
      else
        var interval := if spec.evalInterval != 0 then spec.evalInterval else 60_000_000_000;
        && o.spec == spec.(silenced := false)
        && if s.lastEvalAt.Some? && now < s.lastEvalAt.value + interval then
             o.world == w && o.requeueAfter == s.lastEvalAt.value + interval - now
           else
             && o.world.status.evalCount == s.evalCount + 1 && o.world.status.lastEvalAt == Some(now)
             && o.requeueAfter == if answer.Error? then 5_000_000_000 + jitter else interval
  {
  }

  /** While every reconcile finds the rule disabled or silenced, nothing is evaluated, fired or sent. */
  lemma {:induction false} SilenceIsQuiet(rule: string, steps: seq<Step>, from: nat)
    requires from <= |steps|
    requires forall k :: from <= k < |steps| && steps[k].Reconcile? ==>
               var spec := steps[k].spec;
               !spec.enabled || (spec.silenced && (spec.silenceUntil.None? || steps[k].now <= spec.silenceUntil.value))
    ensures var w, w' := Exec(rule, steps[..from]), Exec(rule, steps);
      && w'.sent == w.sent
      && w'.status.evalCount == w.status.evalCount && w'.status.totalFirings == w.status.totalFirings
  {
    if |steps| == from {
      assert steps[..from] == steps;
    } else {
      var init, last := steps[..|steps| - 1], steps[|steps| - 1];
      assert init[..from] == steps[..from];
      SilenceIsQuiet(rule, init, from);
      if last.Reconcile? {
        ReconcileDecides(Env(rule, last.directory), last.spec, Exec(rule, init), last.now, last.answer, last.jitter);
      }
    }
  }

  /** The delay a skipped reconcile asks for is exactly the time until the gate opens. */
  lemma RequeueOpensTheGate(env: Env, spec: RuleSpec, w: World, now: nat, answer: Answer, jitter: nat, later: nat)
    requires !Muted(spec, now) && Gated(w.status, spec, now)
    ensures var o := Reconciled(env, spec, w, now, answer, jitter);
      && o.world == w
      && o.requeueAfter > 0
      && (Gated(w.status, o.spec, later) <==> later < now + o.requeueAfter)
  {
  }
}
