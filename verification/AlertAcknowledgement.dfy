/**
 * What acknowledgements and resolutions do over runs: who wrote an incident's status last, and that
 * an acknowledged incident is left in peace.
 */
module AlertAcknowledgement {
  import opened Wrappers
  import opened IncidentNames
  import opened AlertModel
  import opened AlertRuns
  import opened AlertIncidents
  import opened AlertEscalation

  /** Nobody can raise the incident any more: it is acknowledged, or no longer the active one. */
  ghost predicate Settled(rule: string, w: World, n: string) {
    && n in Own(rule, w.incidents)
    && (w.incidents[n].status == IncidentAcknowledged || w.status.activeIncident != n)
  }

  /** What settled incident `n` keeps from `w` to `w'`. */
  ghost predicate Rests(rule: string, w: World, w': World, n: string) {
    && Settled(rule, w, n) && Settled(rule, w', n)
    && w'.incidents[n].escalationLevel == w.incidents[n].escalationLevel
    && SentFor(w'.sent, n) == SentFor(w.sent, n)
  }

  lemma RestsWhenEscalating(env: Env, spec: RuleSpec, w: World, now: nat, n: string)
    requires Settled(env.name, w, n)
    ensures Rests(env.name, w, Escalate(env, spec, w, now), n)
  {
    if EscalationDue(spec, w, now) {
      var name := w.status.activeIncident;
      var k := w.incidents[name].escalationLevel;
      DispatchNames(spec.escalation[k].channels, env.directory, false, name, k + 1);
      SentAbout(w.sent, Dispatch(spec.escalation[k].channels, env.directory, false, name, k + 1), name, n);
    }
  }

  lemma RestsWhenFiring(env: Env, spec: RuleSpec, w: World, now: nat, message: string, n: string)
    requires Settled(env.name, w, n) && IncidentName(env.name, now) !in w.incidents
    ensures Rests(env.name, w, Fire(env, spec, w, now, message), n)
  {
    var name := IncidentName(env.name, now);
    DispatchNames(spec.channels, env.directory, true, name, 0);
    SentAbout(w.sent, Dispatch(spec.channels, env.directory, true, name, 0), name, n);
  }

  lemma RestsInSwitch(env: Env, spec: RuleSpec, w: World, now: nat, answer: Answer, n: string)
    requires Settled(env.name, w, n) && NamedFor(n, env.name)
    requires IncidentName(env.name, now) !in w.incidents && !answer.Error?
    ensures Rests(env.name, w, Transition(env, spec, w, now, answer), n)
  {
    if answer.Met? {
      RestsWhenEscalating(env, spec, w, now, n);
      RestsWhenFiring(env, spec, w, now, answer.message, n);
    }
  }

  lemma StaysSettled(rule: string, w: World, step: Step, n: string)
    requires WellStored(rule, w) && Proper(rule, step) && Settled(rule, w, n)
    requires step.ResolveByHand? ==> step.incident != n
    ensures Rests(rule, w, Apply(rule, w, step), n)
  {
    if Evaluates(w, step) {
      if !step.answer.Error? {
        FreshName(rule, w, step.now);
        RestsInSwitch(Env(rule, step.directory), step.spec, Counted(w, step.now), step.now, step.answer, n);
      }
    } else if step.Foreign? {
      ForeignLeavesOwn(rule, w, step, n);
    }
  }

  /**
   * Acknowledging an incident stops its escalation for good: as long as nobody resolves it by hand,
   * its level stays what it was, and nothing more is sent about it.
   */
  lemma {:induction false} AcknowledgedStops(rule: string, steps: seq<Step>, k: nat, n: string)
    requires AllProper(rule, steps) && k < |steps|
    requires steps[k].Acknowledge? && steps[k].incident == n && n in Own(rule, Exec(rule, steps[..k]).incidents)
    requires forall j :: k < j < |steps| && steps[j].ResolveByHand? ==> steps[j].incident != n
    ensures var w, w' := Exec(rule, steps[..k]), Exec(rule, steps);
      && Settled(rule, w', n)
      && w'.incidents[n].escalationLevel == w.incidents[n].escalationLevel
      && SentFor(w'.sent, n) == SentFor(w.sent, n)
  {
    var init := steps[..|steps| - 1];
    if k == |init| {
    } else {
      assert init[..k] == steps[..k];
      AcknowledgedStops(rule, init, k, n);
      OneIncidentPerFiring(rule, init);
      StaysSettled(rule, Exec(rule, init), steps[|steps| - 1], n);
    }
  }

  /** The step writes a new status into the incident. */
  predicate Touches(w: World, step: Step, n: string) {
    n in w.incidents &&
    match step
    case Reconcile(_, _, _, answer, _) =>
      Evaluates(w, step) && answer.NotMet? && w.status.state == Firing && w.status.activeIncident == n
    case Acknowledge(incident, _) => incident == n
    case ResolveByHand(incident, _) => incident == n
    case Foreign(_, _, _, _) => false
  }

  function LastTouch(rule: string, steps: seq<Step>, n: string): Option<Step> {
    if steps == [] then None
    else if Touches(Exec(rule, steps[..|steps| - 1]), steps[|steps| - 1], n) then Some(steps[|steps| - 1])
    else LastTouch(rule, steps[..|steps| - 1], n)
  }

  /** The status and the time of the last touch, and a firing incident if there was none. */
  ghost predicate Says(i: Incident, touch: Option<Step>) {
    match touch
    case None => i.status == IncidentFiring && i.acknowledgedAt.None? && i.resolvedAt.None?
    case Some(Acknowledge(_, now)) => i.status == IncidentAcknowledged && i.acknowledgedAt == Some(now)
    case Some(step) => i.status == IncidentResolved && i.resolvedAt == Some(step.now)
  }

  /** What an incident of the rule's name is after the touches so far. */
  ghost predicate SaidOf(rule: string, w: World, n: string, touch: Option<Step>) {
    if n in Own(rule, w.incidents) then Says(w.incidents[n], touch) else NamedFor(n, rule) ==> touch == None
  }

  lemma TouchedByEvaluation(rule: string, w: World, step: Step, n: string, touch: Option<Step>)
    requires Kept(rule, w) && Evaluates(w, step) && SaidOf(rule, w, n, touch)
    ensures SaidOf(rule, Apply(rule, w, step), n, if Touches(w, step, n) then Some(step) else touch)
  {
    if step.answer.Met? && w.status.state == Firing {
      var w1 := Counted(w, step.now);
      assert Apply(rule, w, step) == Escalate(Env(rule, step.directory), step.spec, w1, step.now);
    }
  }

  lemma TouchSays(rule: string, w: World, step: Step, n: string, touch: Option<Step>)
    requires Kept(rule, w) && ForeignTo(step, rule) && SaidOf(rule, w, n, touch)
    ensures SaidOf(rule, Apply(rule, w, step), n, if Touches(w, step, n) then Some(step) else touch)
  {
    if Evaluates(w, step) {
      TouchedByEvaluation(rule, w, step, n, touch);
    } else if step.Foreign? {
      ForeignLeavesOwn(rule, w, step, n);
    }
  }

  /** Over every run, an incident's status is what the last acknowledgement or resolution made it. */
  lemma {:induction false} StatusIsLastTouch(rule: string, steps: seq<Step>, n: string)
    requires AllForeignTo(steps, rule)
    ensures var w := Exec(rule, steps);
      if n in Own(rule, w.incidents) then Says(w.incidents[n], LastTouch(rule, steps, n))
      else NamedFor(n, rule) ==> LastTouch(rule, steps, n) == None
  {
    if steps == [] {
    } else {
      var init := steps[..|steps| - 1];
      StatusIsLastTouch(rule, init, n);
      KeptOverRuns(rule, init);
      TouchSays(rule, Exec(rule, init), steps[|steps| - 1], n, LastTouch(rule, init, n));
    }
  }

  /** A rule with one escalation level after a minute. */
  function Escalating(): RuleSpec {
    RuleSpec(true, false, None, 0, 0, [], [EscalationLevel(MINUTE, [])])
  }

  /** Fires at zero, is acknowledged, is resolved by hand, and is still true after a minute. */
  function ResolvedTooEarly(rule: string): seq<Step> {
    var n := IncidentName(rule, 0);
    [Reconcile(Escalating(), map[], 0, Met(""), 0), Acknowledge(n, SECOND), ResolveByHand(n, 2 * SECOND),
     Reconcile(Escalating(), map[], MINUTE, Met(""), 0)]
  }

  /** Resolving by hand takes the acknowledgement back: the resolved incident is escalated. */
  lemma ResolvedByHandClimbs(rule: string)
    ensures var w, n := Exec(rule, ResolvedTooEarly(rule)), IncidentName(rule, 0);
      && n in w.incidents
      && w.incidents[n].status == IncidentResolved && w.incidents[n].escalationLevel == 1
  {
    var steps := ResolvedTooEarly(rule);
    assert steps[..3][..2] == steps[..2] && steps[..2][..1] == steps[..1] && steps[..1][..0] == [];
    var w1 := Apply(rule, START, steps[0]);
    var w2 := Apply(rule, w1, steps[1]);
    var w3 := Apply(rule, w2, steps[2]);
    assert Exec(rule, steps[..1]) == w1;
    assert Exec(rule, steps[..2]) == w2;
    assert Exec(rule, steps[..3]) == w3;
  }
}
