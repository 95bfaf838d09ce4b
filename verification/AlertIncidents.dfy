/**
 * Incidents over runs: every firing creates its own incident, and the rule's state, its active
 * incident and the resolution of the older ones stay linked.
 */
module AlertIncidents {
  import opened Wrappers
  import opened IncidentNames
  import opened AlertModel
  import opened AlertRuns

  ghost function Own(rule: string, incidents: map<string, Incident>): set<string> {
    set n | n in incidents && incidents[n].ruleRef == rule
  }

  ghost predicate NamedFor(n: string, rule: string) {
    exists at: nat :: n == IncidentName(rule, at)
  }

  /** The rule's incidents are exactly those named for it, and the active one is among them. */
  ghost predicate Kept(rule: string, w: World) {
    && (forall n :: n in w.incidents ==> (w.incidents[n].ruleRef == rule <==> NamedFor(n, rule)))
    && (w.status.activeIncident != "" ==> w.status.activeIncident in Own(rule, w.incidents))
  }

  lemma ForeignName(rule: string, owner: string, at: nat)
    ensures NamedFor(IncidentName(owner, at), rule) <==> owner == rule
  {
    if at': nat :| IncidentName(owner, at) == IncidentName(rule, at') {
      NamesDistinct(owner, at, rule, at');
    }
  }

  lemma FiringKept(env: Env, spec: RuleSpec, w: World, now: nat, message: string)
    requires Kept(env.name, w)
    ensures Kept(env.name, Fire(env, spec, w, now, message))
  {
    assert NamedFor(IncidentName(env.name, now), env.name);
  }

  lemma RewritingKept(rule: string, w: World, n: string, i: Incident)
    requires Kept(rule, w) && n in w.incidents && i.ruleRef == w.incidents[n].ruleRef
    ensures Kept(rule, w.(incidents := w.incidents[n := i]))
  {
  }

  lemma SwitchKeeps(env: Env, spec: RuleSpec, w: World, now: nat, answer: Answer)
    requires Kept(env.name, w) && !answer.Error?
    ensures Kept(env.name, Transition(env, spec, w, now, answer))
  {
    var n := w.status.activeIncident;
    match answer
    case Met(message) =>
      if w.status.state != Firing {
        FiringKept(env, spec, w, now, message);
      } else if EscalationDue(spec, w, now) {
        RewritingKept(env.name, w, n, w.incidents[n].(escalationLevel := w.incidents[n].escalationLevel + 1));
      }
    case NotMet =>
      if n != "" {
        RewritingKept(env.name, w, n, Close(w.incidents[n], now));
      }
  }

  lemma StepKeeps(rule: string, w: World, step: Step)
    requires Kept(rule, w) && ForeignTo(step, rule)
    ensures Kept(rule, Apply(rule, w, step))
  {
    match step
    case Reconcile(spec, directory, now, answer, _) =>
      if Evaluates(w, step) && !answer.Error? {
        assert Kept(rule, Counted(w, now));
        SwitchKeeps(Env(rule, directory), spec, Counted(w, now), now, answer);
      }
    case Foreign(owner, at, _, _) => ForeignName(rule, owner, at);
    case _ =>
  }

  /** Whatever the intervals, the rule's incidents stay its own. */
  lemma {:induction false} KeptOverRuns(rule: string, steps: seq<Step>)
    requires AllForeignTo(steps, rule)
    ensures Kept(rule, Exec(rule, steps))
  {
    if steps == [] {
    } else {
      KeptOverRuns(rule, steps[..|steps| - 1]);
      StepKeeps(rule, Exec(rule, steps[..|steps| - 1]), steps[|steps| - 1]);
    }
  }

  lemma ForeignLeavesOwn(rule: string, w: World, step: Step, n: string)
    requires Kept(rule, w) && step.Foreign? && ForeignTo(step, rule)
    ensures var w' := Apply(rule, w, step);
      && (n in Own(rule, w'.incidents) <==> n in Own(rule, w.incidents))
      && (n in Own(rule, w.incidents) ==> w'.incidents[n] == w.incidents[n])
  {
    ForeignName(rule, step.owner, step.at);
  }

  /** The incident was fired by this rule's evaluation at the time its name tells. */
  ghost predicate WellNamed(rule: string, n: string, i: Incident, lastEvalAt: Option<nat>) {
    && i.firedAt.Some?
    && n == IncidentName(rule, i.firedAt.value)
    && lastEvalAt.Some?
    && i.firedAt.value <= lastEvalAt.value
  }

  ghost predicate WellStored(rule: string, w: World) {
    && Kept(rule, w)
    && (forall n :: n in Own(rule, w.incidents) ==> WellNamed(rule, n, w.incidents[n], w.status.lastEvalAt))
    && (w.status.activeIncident != "" ==> w.incidents[w.status.activeIncident].firedAt == w.status.lastFiredAt)
    && |Own(rule, w.incidents)| == w.status.totalFirings
  }

  /** The step's evaluations are at least a second apart, and other rules keep to their own incidents. */
  predicate Proper(rule: string, step: Step) {
    IntervalAtLeast(step, SECOND) && ForeignTo(step, rule)
  }

  ghost predicate AllProper(rule: string, steps: seq<Step>) {
    forall k :: 0 <= k < |steps| ==> Proper(rule, steps[k])
  }

  /** A firing a second or more after the last evaluation gets a name no incident has. */
  lemma FreshName(rule: string, w: World, now: nat)
    requires WellStored(rule, w)
    requires w.status.lastEvalAt.Some? ==> now >= w.status.lastEvalAt.value + SECOND
    ensures IncidentName(rule, now) !in w.incidents
  {
    var n := IncidentName(rule, now);
    if n in w.incidents {
      assert NamedFor(n, rule);
      assert n in Own(rule, w.incidents);
      NamesDistinct(rule, w.incidents[n].firedAt.value, rule, now);
      assert false;
    }
  }

  /** Rewriting an incident without touching its rule or firing time keeps the store well formed. */
  lemma RewriteKeeps(rule: string, w: World, n: string, i: Incident)
    requires WellStored(rule, w) && n in w.incidents
    requires i.ruleRef == w.incidents[n].ruleRef && i.firedAt == w.incidents[n].firedAt
    ensures WellStored(rule, w.(incidents := w.incidents[n := i]))
    ensures Own(rule, w.incidents[n := i]) == Own(rule, w.incidents)
  {
    assert Own(rule, w.incidents[n := i]) == Own(rule, w.incidents);
  }

  lemma ForeignKeeps(rule: string, w: World, step: Step)
    requires WellStored(rule, w) && step.Foreign? && ForeignTo(step, rule)
    ensures WellStored(rule, Apply(rule, w, step))
  {
    StepKeeps(rule, w, step);
    var w' := Apply(rule, w, step);
    forall n ensures n in Own(rule, w'.incidents) <==> n in Own(rule, w.incidents)
             ensures n in Own(rule, w.incidents) ==> w'.incidents[n] == w.incidents[n]
    {
      ForeignLeavesOwn(rule, w, step, n);
    }
    assert Own(rule, w'.incidents) == Own(rule, w.incidents);
  }

  lemma FireKeeps(env: Env, spec: RuleSpec, w: World, now: nat, message: string)
    requires WellStored(env.name, w) && IncidentName(env.name, now) !in w.incidents
    requires w.status.lastEvalAt == Some(now)
    ensures WellStored(env.name, Fire(env, spec, w, now, message))
  {
    var n := IncidentName(env.name, now);
    var i := NewIncident(env.name, message, now);
    assert Own(env.name, w.incidents[n := i]) == Own(env.name, w.incidents) + {n};
    assert NamedFor(n, env.name);
  }

  lemma CountedKeeps(rule: string, w: World, now: nat)
    requires WellStored(rule, w)
    requires w.status.lastEvalAt.Some? ==> w.status.lastEvalAt.value <= now
    ensures WellStored(rule, Counted(w, now))
  {
  }

  lemma ErrorNotedKeeps(rule: string, w: World, now: nat, message: string)
    requires WellStored(rule, w)
    ensures WellStored(rule, ErrorNoted(w, now, message))
  {
  }

  lemma ResolveKeeps(rule: string, w: World, now: nat)
    requires WellStored(rule, w)
    ensures WellStored(rule, AlertModel.Resolve(w, now))
  {
    var n := w.status.activeIncident;
    if n != "" {
      RewriteKeeps(rule, w, n, Close(w.incidents[n], now));
    }
  }

  lemma EscalateKeeps(env: Env, spec: RuleSpec, w: World, now: nat)
    requires WellStored(env.name, w)
    ensures WellStored(env.name, Escalate(env, spec, w, now))
  {
    if EscalationDue(spec, w, now) {
      var n := w.status.activeIncident;
      RewriteKeeps(env.name, w, n, w.incidents[n].(escalationLevel := w.incidents[n].escalationLevel + 1));
    }
  }

  lemma TransitionKeeps(env: Env, spec: RuleSpec, w: World, now: nat, answer: Answer)
    requires WellStored(env.name, w) && !answer.Error?
    requires IncidentName(env.name, now) !in w.incidents && w.status.lastEvalAt == Some(now)
    ensures WellStored(env.name, Transition(env, spec, w, now, answer))
  {
    match answer
    case Met(message) =>
      if w.status.state == Firing {
        EscalateKeeps(env, spec, w, now);
      } else {
        FireKeeps(env, spec, w, now, message);
      }
    case NotMet =>
      ResolveKeeps(env.name, w, now);
  }

  lemma EvaluationKeeps(env: Env, spec: RuleSpec, w: World, now: nat, answer: Answer)
    requires WellStored(env.name, w)
    requires w.status.lastEvalAt.Some? ==> now >= w.status.lastEvalAt.value + SECOND
    ensures WellStored(env.name, Evaluated(env, spec, w, now, answer))
  {
    FreshName(env.name, w, now);
    CountedKeeps(env.name, w, now);
    if answer.Error? {
      ErrorNotedKeeps(env.name, Counted(w, now), now, answer.message);
    } else {
      TransitionKeeps(env, spec, Counted(w, now), now, answer);
    }
  }

  lemma StepKeepsStore(rule: string, w: World, step: Step)
    requires WellStored(rule, w) && Proper(rule, step)
    ensures WellStored(rule, Apply(rule, w, step))
  {
    match step
    case Reconcile(spec, directory, now, answer, _) =>
      if Evaluates(w, step) {
        EvaluationKeeps(Env(rule, directory), spec, w, now, answer);
      }
    case Acknowledge(n, now) =>
      if n in w.incidents {
        RewriteKeeps(rule, w, n, Acknowledged(w.incidents, n, now)[n]);
      }
    case ResolveByHand(n, now) =>
      if n in w.incidents {
        RewriteKeeps(rule, w, n, Close(w.incidents[n], now));
      }
    case Foreign(_, _, _, _) => ForeignKeeps(rule, w, step);
  }

  /**
   * Incident names never collide: over every run whose evaluations are a second or more apart,
   * disabling and silencing included, the store holds one incident for each firing of the rule.
   */
  lemma {:induction false} OneIncidentPerFiring(rule: string, steps: seq<Step>)
    requires AllProper(rule, steps)
    ensures WellStored(rule, Exec(rule, steps))
  {
    if steps == [] {
    } else {
      OneIncidentPerFiring(rule, steps[..|steps| - 1]);
      StepKeepsStore(rule, Exec(rule, steps[..|steps| - 1]), steps[|steps| - 1]);
    }
  }

  /** Every run with evaluations at least `i` apart keeps one incident for each firing. */
  ghost predicate CollisionFree(rule: string, i: nat) {
    forall steps ::
      ClockMonotone(steps) && IntervalsAtLeast(steps, i) && AllForeignTo(steps, rule) ==>
        |Own(rule, Exec(rule, steps).incidents)| == Exec(rule, steps).status.totalFirings
  }

  /** A rule evaluated every `i`, without a hold or channels. */
  function Every(i: nat): RuleSpec {
    RuleSpec(true, false, None, i, 0, [], [])
  }

  function Disabled(spec: RuleSpec): RuleSpec {
    spec.(enabled := false)
  }

  /** Fires at 0, is disabled, and fires again `i` later within the same second. */
  function QuickRefire(i: nat): seq<Step> {
    [Reconcile(Every(i), map[], 0, Met(""), 0),
     Reconcile(Disabled(Every(i)), map[], 0, NotMet, 0),
     Reconcile(Every(i), map[], i, Met(""), 0)]
  }

  lemma QuickRefireCollides(rule: string, i: nat)
    requires 0 < i < SECOND
    ensures var w := Exec(rule, QuickRefire(i));
      w.status.totalFirings == 2 && |Own(rule, w.incidents)| == 1
  {
    var steps := QuickRefire(i);
    assert steps[..2][..1] == steps[..1] && steps[..1][..0] == [];
    var w1 := Apply(rule, START, steps[0]);
    var w2 := Apply(rule, w1, steps[1]);
    assert Exec(rule, steps[..1]) == w1;
    assert Exec(rule, steps[..2]) == w2;
    NamesDistinct(rule, 0, rule, i);
    assert Own(rule, Exec(rule, steps).incidents) == {IncidentName(rule, 0)};
  }

  /** Names carry whole seconds, so a second is exactly the interval that keeps them apart. */
  lemma CollisionFreeExactly(rule: string, i: nat)
    requires i > 0
    ensures CollisionFree(rule, i) <==> i >= SECOND
  {
    if i >= SECOND {
      forall steps | ClockMonotone(steps) && IntervalsAtLeast(steps, i) && AllForeignTo(steps, rule)
        ensures |Own(rule, Exec(rule, steps).incidents)| == Exec(rule, steps).status.totalFirings
      {
        forall k | 0 <= k < |steps| ensures Proper(rule, steps[k]) {
          assert IntervalAtLeast(steps[k], i) && ForeignTo(steps[k], rule);
        }
        OneIncidentPerFiring(rule, steps);
      }
    } else {
      QuickRefireCollides(rule, i);
    }
  }

  /** Firing exactly when an incident is active, and every other incident of the rule resolved. */
  ghost predicate Linked(rule: string, w: World) {
    && (w.status.state == Firing <==> w.status.activeIncident != "")
    && forall n :: n in Own(rule, w.incidents) && n != w.status.activeIncident ==>
         w.incidents[n].resolvedAt.Some?
  }

  lemma EvaluationLinks(env: Env, spec: RuleSpec, w: World, now: nat, answer: Answer)
    requires Kept(env.name, w) && Linked(env.name, w)
    ensures Linked(env.name, Evaluated(env, spec, w, now, answer))
  {
  }

  /**
   * One step keeps the link exactly when it is not a reconcile that finds a firing rule disabled
   * or silenced: that one overwrites the state and leaves the incident open.
   */
  lemma LinkKeptExactly(rule: string, w: World, step: Step)
    requires Kept(rule, w) && Linked(rule, w) && ForeignTo(step, rule)
    ensures Linked(rule, Apply(rule, w, step)) <==> !(Mutes(step) && w.status.state == Firing)
  {
    match step
    case Reconcile(spec, directory, now, answer, _) =>
      if Evaluates(w, step) {
        EvaluationLinks(Env(rule, directory), spec, w, now, answer);
      }
    case Foreign(_, _, _, _) =>
      forall n ensures n in Own(rule, Apply(rule, w, step).incidents) <==> n in Own(rule, w.incidents)
               ensures n in Own(rule, w.incidents) ==> Apply(rule, w, step).incidents[n] == w.incidents[n]
      {
        ForeignLeavesOwn(rule, w, step, n);
      }
    case _ =>
  }

  /** Disabling a rule that fired leaves its incident open, active and never resolved. */
  lemma DisablingBreaksLink(rule: string)
    ensures var w := Exec(rule, QuickRefire(1)[..2]);
      && !Linked(rule, w) && w.status.state == Inactive
      && w.status.activeIncident in Own(rule, w.incidents)
      && w.incidents[w.status.activeIncident].resolvedAt.None?
  {
    var steps := QuickRefire(1)[..2];
    assert steps[..1][..0] == [];
    var w1 := Apply(rule, START, steps[0]);
    assert Exec(rule, steps[..1]) == w1;
    assert w1.status.state == Firing && w1.status.activeIncident != "";
  }

  ghost predicate LinkedThroughout(rule: string, steps: seq<Step>) {
    forall k :: 0 <= k <= |steps| ==> Linked(rule, Exec(rule, steps[..k]))
  }

  ghost predicate MutesFiring(rule: string, steps: seq<Step>, k: nat)
    requires k < |steps|
  {
    Mutes(steps[k]) && Exec(rule, steps[..k]).status.state == Firing
  }

  ghost predicate NeverMutesFiring(rule: string, steps: seq<Step>) {
    forall k :: 0 <= k < |steps| ==> !MutesFiring(rule, steps, k)
  }

  lemma LinkedThroughoutSplits(rule: string, steps: seq<Step>)
    requires steps != []
    ensures LinkedThroughout(rule, steps)
       <==> LinkedThroughout(rule, steps[..|steps| - 1]) && Linked(rule, Exec(rule, steps))
  {
    var init := steps[..|steps| - 1];
    assert steps[..|steps|] == steps;
    assert forall k :: 0 <= k < |steps| ==> init[..k] == steps[..k];
  }

  lemma MutesFiringSplits(rule: string, steps: seq<Step>)
    requires steps != []
    ensures NeverMutesFiring(rule, steps)
       <==> NeverMutesFiring(rule, steps[..|steps| - 1]) && !MutesFiring(rule, steps, |steps| - 1)
  {
    var init := steps[..|steps| - 1];
    forall k | 0 <= k < |init| ensures MutesFiring(rule, steps, k) == MutesFiring(rule, init, k) {
      assert init[..k] == steps[..k];
    }
  }

  /** Over a whole run the link holds after every step exactly when no reconcile mutes a firing rule. */
  lemma {:induction false} LinkOverRuns(rule: string, steps: seq<Step>)
    requires AllForeignTo(steps, rule)
    ensures LinkedThroughout(rule, steps) <==> NeverMutesFiring(rule, steps)
  {
    if steps == [] {
      assert steps[..0] == [];
    } else {
      var init := steps[..|steps| - 1];
      LinkOverRuns(rule, init);
      LinkedThroughoutSplits(rule, steps);
      MutesFiringSplits(rule, steps);
      if LinkedThroughout(rule, init) {
        KeptOverRuns(rule, init);
        assert init[..|init|] == init;
        LinkKeptExactly(rule, Exec(rule, init), steps[|steps| - 1]);
      }
    }
  }
}
