/**
 * The escalation ladder over runs: which reconciles an incident's level stands for, what was sent
 * about it, exactly when it climbs, and that it does.
 */
module AlertEscalation {
  import opened Wrappers
  import opened IncidentNames
  import opened AlertModel
  import opened AlertRuns
  import opened AlertIncidents

  /** The notifications about one incident, in the order they were sent. */
  function SentFor(sent: seq<Notification>, n: string): seq<Notification> {
    if sent == [] then [] else
      SentFor(sent[..|sent| - 1], n) + if sent[|sent| - 1].incident == n then [sent[|sent| - 1]] else []
  }

  lemma {:induction false} SentForConcat(a: seq<Notification>, b: seq<Notification>, n: string)
    ensures SentFor(a + b, n) == SentFor(a, n) + SentFor(b, n)
  {
    if b == [] {
      assert a + b == a;
    } else {
      assert (a + b)[..|a + b| - 1] == a + b[..|b| - 1];
      SentForConcat(a, b[..|b| - 1], n);
    }
  }

  lemma {:induction false} NothingSentFor(sent: seq<Notification>, n: string)
    requires forall k :: 0 <= k < |sent| ==> sent[k].incident != n
    ensures SentFor(sent, n) == []
  {
    if sent == [] {
    } else {
      NothingSentFor(sent[..|sent| - 1], n);
    }
  }

  ghost predicate AllAbout(d: seq<Notification>, n: string) {
    forall k :: 0 <= k < |d| ==> d[k].incident == n
  }

  lemma {:induction false} AllSentFor(d: seq<Notification>, n: string)
    requires AllAbout(d, n)
    ensures SentFor(d, n) == d
  {
    if d == [] {
    } else {
      var init, last := d[..|d| - 1], d[|d| - 1];
      AllSentFor(init, n);
      assert SentFor(d, n) == SentFor(init, n) + [last];
      assert d == init + [last];
    }
  }

  lemma {:induction false} DispatchNames(refs: seq<string>, directory: map<string, bool>, onlyEnabled: bool,
                                         incident: string, level: nat)
    ensures AllAbout(Dispatch(refs, directory, onlyEnabled, incident, level), incident)
  {
    if refs == [] {
    } else {
      DispatchNames(refs[..|refs| - 1], directory, onlyEnabled, incident, level);
    }
  }

  /** Who is notified: the listed channels the store knows and, for a firing, those enabled. */
  lemma {:induction false} DispatchReaches(refs: seq<string>, directory: map<string, bool>, onlyEnabled: bool,
                                           incident: string, level: nat, n: Notification)
    ensures n in Dispatch(refs, directory, onlyEnabled, incident, level)
       <==> && n.incident == incident && n.level == level
            && n.channel in refs && n.channel in directory && (!onlyEnabled || directory[n.channel])
  {
    if refs == [] {
    } else {
      DispatchReaches(refs[..|refs| - 1], directory, onlyEnabled, incident, level, n);
      assert refs == refs[..|refs| - 1] + [refs[|refs| - 1]];
    }
  }

  /** A list of channels is notified in order: the parts one after the other. */
  lemma {:induction false} DispatchConcat(a: seq<string>, b: seq<string>, directory: map<string, bool>,
                                          onlyEnabled: bool, incident: string, level: nat)
    ensures Dispatch(a + b, directory, onlyEnabled, incident, level)
         == Dispatch(a, directory, onlyEnabled, incident, level) + Dispatch(b, directory, onlyEnabled, incident, level)
  {
    if b == [] {
      assert a + b == a;
    } else {
      assert (a + b)[..|a + b| - 1] == a + b[..|b| - 1];
      DispatchConcat(a, b[..|b| - 1], directory, onlyEnabled, incident, level);
    }
  }

  /** One channel is notified once, if the store knows it and, for a firing, it is enabled. */
  lemma DispatchOne(channel: string, directory: map<string, bool>, onlyEnabled: bool, incident: string, level: nat)
    ensures Dispatch([channel], directory, onlyEnabled, incident, level)
         == if channel in directory && (directory[channel] || !onlyEnabled)
            then [Notification(channel, incident, level)] else []
  {
    assert [channel][..0] == [];
  }

  /** The reconcile creates the incident or raises its level. */
  predicate Reaches(w: World, w': World, step: Step, n: string) {
    && step.Reconcile? && n in w'.incidents
    && (n in w.incidents ==> w'.incidents[n].escalationLevel > w.incidents[n].escalationLevel)
  }

  /** The reconciles of a run that brought the incident to each of its levels. */
  function Rungs(rule: string, steps: seq<Step>, n: string): seq<Step> {
    if steps == [] then [] else
      var init, last := steps[..|steps| - 1], steps[|steps| - 1];
      if Reaches(Exec(rule, init), Exec(rule, steps), last, n) then Rungs(rule, init, n) + [last]
      else Rungs(rule, init, n)
  }

  /** What the reconcile that brings an incident to level `k` is to send, by its own spec and directory. */
  function Told(step: Step, k: nat, n: string): seq<Notification> {
    if !step.Reconcile? || k > |step.spec.escalation| then []
    else if k == 0 then Dispatch(step.spec.channels, step.directory, true, n, 0)
    else Dispatch(step.spec.escalation[k - 1].channels, step.directory, false, n, k)
  }

  function AllTold(rungs: seq<Step>, n: string): seq<Notification> {
    if rungs == [] then [] else AllTold(rungs[..|rungs| - 1], n) + Told(rungs[|rungs| - 1], |rungs| - 1, n)
  }

  /** The reconcile may bring an incident fired at `firedAt` to level `k`. */
  predicate IsRung(step: Step, k: nat, firedAt: nat) {
    && step.Reconcile? && !Muted(step.spec, step.now) && step.answer.Met?
    && if k == 0 then step.now == firedAt
       else k <= |step.spec.escalation| && step.now - firedAt >= step.spec.escalation[k - 1].after
  }

  /** One rung for each level from zero up, each sent once and in order. */
  ghost predicate Accounted(n: string, i: Incident, rungs: seq<Step>, sent: seq<Notification>) {
    && i.firedAt.Some?
    && |rungs| == i.escalationLevel + 1
    && (forall k :: 0 <= k < |rungs| ==> IsRung(rungs[k], k, i.firedAt.value))
    && SentFor(sent, n) == AllTold(rungs, n)
  }

  /** An incident of the rule is accounted for; about any other nothing was sent. */
  ghost predicate Climbed(rule: string, w: World, n: string, rungs: seq<Step>) {
    if n in Own(rule, w.incidents) then Accounted(n, w.incidents[n], rungs, w.sent)
    else rungs == [] && SentFor(w.sent, n) == []
  }

  lemma SentAbout(sent: seq<Notification>, d: seq<Notification>, name: string, n: string)
    requires AllAbout(d, name)
    ensures SentFor(sent + d, n) == SentFor(sent, n) + if n == name then d else []
  {
    SentForConcat(sent, d, n);
    if n == name {
      AllSentFor(d, n);
    } else {
      NothingSentFor(d, n);
    }
  }

  lemma NextRung(n: string, i: Incident, rungs: seq<Step>, step: Step)
    requires i.firedAt.Some? && IsRung(step, |rungs|, i.firedAt.value)
    requires forall k :: 0 <= k < |rungs| ==> IsRung(rungs[k], k, i.firedAt.value)
    ensures forall k :: 0 <= k <= |rungs| ==> IsRung((rungs + [step])[k], k, i.firedAt.value)
    ensures AllTold(rungs + [step], n) == AllTold(rungs, n) + Told(step, |rungs|, n)
  {
    assert (rungs + [step])[..|rungs|] == rungs;
  }

  lemma FireClimbs(rule: string, w: World, step: Step, n: string, rungs: seq<Step>)
    requires step.Reconcile? && step.answer.Met? && !Muted(step.spec, step.now)
    requires Climbed(rule, w, n, rungs) && IncidentName(rule, step.now) !in w.incidents
    ensures var w' := Fire(Env(rule, step.directory), step.spec, w, step.now, step.answer.message);
      Climbed(rule, w', n, if Reaches(w, w', step, n) then rungs + [step] else rungs)
  {
    var name := IncidentName(rule, step.now);
    var d := Dispatch(step.spec.channels, step.directory, true, name, 0);
    DispatchNames(step.spec.channels, step.directory, true, name, 0);
    SentAbout(w.sent, d, name, n);
    if n == name {
      NextRung(n, NewIncident(rule, step.answer.message, step.now), [], step);
    }
  }

  /** The account of an incident after one more rung. */
  lemma RungAccounted(n: string, i: Incident, rungs: seq<Step>, step: Step, sent: seq<Notification>,
                      d: seq<Notification>)
    requires Accounted(n, i, rungs, sent) && AllAbout(d, n) && d == Told(step, |rungs|, n)
    requires i.firedAt.Some? && IsRung(step, |rungs|, i.firedAt.value)
    ensures Accounted(n, i.(escalationLevel := i.escalationLevel + 1), rungs + [step], sent + d)
  {
    SentAbout(sent, d, n, n);
    NextRung(n, i, rungs, step);
  }

  lemma EscalateClimbs(rule: string, w: World, step: Step, n: string, rungs: seq<Step>)
    requires step.Reconcile? && step.answer.Met? && !Muted(step.spec, step.now)
    requires Climbed(rule, w, n, rungs) && Kept(rule, w)
    ensures var w' := Escalate(Env(rule, step.directory), step.spec, w, step.now);
      Climbed(rule, w', n, if Reaches(w, w', step, n) then rungs + [step] else rungs)
  {
    if EscalationDue(step.spec, w, step.now) {
      var name := w.status.activeIncident;
      var k := w.incidents[name].escalationLevel;
      var d := Dispatch(step.spec.escalation[k].channels, step.directory, false, name, k + 1);
      DispatchNames(step.spec.escalation[k].channels, step.directory, false, name, k + 1);
      if n == name {
        RungAccounted(n, w.incidents[n], rungs, step, w.sent, d);
      } else {
        SentAbout(w.sent, d, name, n);
      }
    }
  }

  /** A step that changes no level and sends nothing keeps the account. */
  lemma QuietClimbs(rule: string, w: World, w': World, n: string, rungs: seq<Step>)
    requires Climbed(rule, w, n, rungs) && w'.sent == w.sent
    requires n in Own(rule, w'.incidents) <==> n in Own(rule, w.incidents)
    requires n in Own(rule, w.incidents) ==>
               && w'.incidents[n].firedAt == w.incidents[n].firedAt
               && w'.incidents[n].escalationLevel == w.incidents[n].escalationLevel
    ensures Climbed(rule, w', n, rungs)
  {
  }

  lemma MetClimbs(rule: string, w: World, step: Step, n: string, rungs: seq<Step>)
    requires Kept(rule, w) && Climbed(rule, w, n, rungs)
    requires step.Reconcile? && step.answer.Met? && !Muted(step.spec, step.now)
    requires IncidentName(rule, step.now) !in w.incidents
    ensures var w' := Transition(Env(rule, step.directory), step.spec, w, step.now, step.answer);
      Climbed(rule, w', n, if Reaches(w, w', step, n) then rungs + [step] else rungs)
  {
    if w.status.state == Firing {
      EscalateClimbs(rule, w, step, n, rungs);
    } else {
      FireClimbs(rule, w, step, n, rungs);
    }
  }

  lemma NotMetClimbs(rule: string, w: World, step: Step, n: string, rungs: seq<Step>)
    requires Evaluates(w, step) && !step.answer.Met? && Climbed(rule, w, n, rungs)
    ensures Climbed(rule, Apply(rule, w, step), n, rungs) && !Reaches(w, Apply(rule, w, step), step, n)
  {
    QuietClimbs(rule, w, Apply(rule, w, step), n, rungs);
  }

  lemma EvaluationClimbs(rule: string, w: World, step: Step, n: string, rungs: seq<Step>)
    requires WellStored(rule, w) && Proper(rule, step) && Evaluates(w, step)
    requires Climbed(rule, w, n, rungs)
    ensures var w' := Apply(rule, w, step);
      Climbed(rule, w', n, if Reaches(w, w', step, n) then rungs + [step] else rungs)
  {
    if step.answer.Met? {
      var w1 := Counted(w, step.now);
      FreshName(rule, w, step.now);
      QuietClimbs(rule, w, w1, n, rungs);
      MetClimbs(rule, w1, step, n, rungs);
    } else {
      NotMetClimbs(rule, w, step, n, rungs);
    }
  }

  lemma StepClimbs(rule: string, w: World, step: Step, n: string, rungs: seq<Step>)
    requires WellStored(rule, w) && Proper(rule, step)
    requires Climbed(rule, w, n, rungs)
    ensures var w' := Apply(rule, w, step);
      Climbed(rule, w', n, if Reaches(w, w', step, n) then rungs + [step] else rungs)
  {
    if Evaluates(w, step) {
      EvaluationClimbs(rule, w, step, n, rungs);
    } else {
      if step.Foreign? {
        ForeignLeavesOwn(rule, w, step, n);
      }
      QuietClimbs(rule, w, Apply(rule, w, step), n, rungs);
    }
  }

  /**
   * Over every run, whatever is edited, disabled, silenced, acknowledged or resolved in between: an
   * incident at level k was brought there by exactly k + 1 reconciles. The first fired it, each
   * other one found the delay of the next level passed, and what was sent about it is what these
   * reconciles had to send by the spec and the channels of their time, once each and in order.
   */
  lemma {:induction false} LadderOverRuns(rule: string, steps: seq<Step>, n: string)
    requires AllProper(rule, steps)
    ensures Climbed(rule, Exec(rule, steps), n, Rungs(rule, steps, n))
  {
    if steps == [] {
    } else {
      var init, last := steps[..|steps| - 1], steps[|steps| - 1];
      LadderOverRuns(rule, init, n);
      OneIncidentPerFiring(rule, init);
      StepClimbs(rule, Exec(rule, init), last, n, Rungs(rule, init, n));
    }
  }

  /** The step escalates the incident: it evaluates to true and finds the next level due. */
  predicate Raises(w: World, step: Step, n: string) {
    && Evaluates(w, step) && step.answer.Met?
    && w.status.state == Firing && w.status.activeIncident == n
    && EscalationDue(step.spec, w, step.now)
  }

  lemma EvaluationRaisesExactly(rule: string, w: World, step: Step, n: string)
    requires Evaluates(w, step) && n in w.incidents
    ensures var w' := Apply(rule, w, step);
      && n in w'.incidents
      && w'.incidents[n].escalationLevel
           == w.incidents[n].escalationLevel + if Raises(w, step, n) then 1 else 0
  {
    assert EscalationDue(step.spec, Counted(w, step.now), step.now) <==> EscalationDue(step.spec, w, step.now);
  }

  /** A step raises the level by one exactly if it escalates the incident, and else leaves it alone. */
  lemma LevelRisesExactly(rule: string, w: World, step: Step, n: string)
    requires Kept(rule, w) && ForeignTo(step, rule) && n in Own(rule, w.incidents)
    ensures var w' := Apply(rule, w, step);
      && n in Own(rule, w'.incidents)
      && w'.incidents[n].escalationLevel
           == w.incidents[n].escalationLevel + if Raises(w, step, n) then 1 else 0
  {
    match step
    case Reconcile(_, _, _, _, _) =>
      if Evaluates(w, step) {
        EvaluationRaisesExactly(rule, w, step, n);
      }
    case Foreign(_, _, _, _) => ForeignLeavesOwn(rule, w, step, n);
    case _ =>
  }

  /** The steps that let an incident go on climbing `levels`: none mutes, resolves or acknowledges it. */
  predicate LetsClimb(levels: seq<EscalationLevel>, w: World, step: Step, n: string) {
    match step
    case Reconcile(spec, _, now, answer, _) =>
      spec.escalation == levels && !Muted(spec, now) && (Evaluates(w, step) ==> !answer.NotMet?)
    case Acknowledge(incident, _) => incident != n
    case _ => true
  }

  /** An evaluation to true that finds all delays passed. */
  predicate Overdue(levels: seq<EscalationLevel>, w: World, step: Step, n: string) {
    && Evaluates(w, step) && step.answer.Met?
    && n in w.incidents && w.incidents[n].firedAt.Some?
    && forall j :: 0 <= j < |levels| ==> step.now - w.incidents[n].firedAt.value >= levels[j].after
  }

  /** The overdue evaluations of a run from the step `from` on. */
  function Overdues(rule: string, levels: seq<EscalationLevel>, steps: seq<Step>, from: nat, n: string): nat
    requires from <= |steps|
  {
    if |steps| == from then 0 else
      var init, last := steps[..|steps| - 1], steps[|steps| - 1];
      Overdues(rule, levels, init, from, n) + if Overdue(levels, Exec(rule, init), last, n) then 1 else 0
  }

  /** The rule is firing, and its active incident, not acknowledged, is at `level` or higher. */
  ghost predicate Climbing(rule: string, levels: seq<EscalationLevel>, w: World, n: string, level: int) {
    && w.status.state == Firing && w.status.activeIncident == n != ""
    && n in Own(rule, w.incidents) && w.incidents[n].status != IncidentAcknowledged
    && level <= w.incidents[n].escalationLevel <= |levels|
  }

  function Min(a: int, b: int): int { if a < b then a else b }

  lemma StaysClimbing(rule: string, levels: seq<EscalationLevel>, w: World, step: Step, n: string, level: int)
    requires Kept(rule, w) && ForeignTo(step, rule)
    requires Climbing(rule, levels, w, n, level) && LetsClimb(levels, w, step, n)
    ensures Climbing(rule, levels, Apply(rule, w, step), n,
                     if Overdue(levels, w, step, n) then Min(level + 1, |levels|) else level)
  {
    LevelRisesExactly(rule, w, step, n);
    if step.Foreign? {
      ForeignLeavesOwn(rule, w, step, n);
    }
  }

  /**
   * An incident nobody acknowledges climbs a level at every overdue evaluation until the ladder is
   * done, whatever else happens in between: waiting reconciles, failed evaluations, acknowledgements
   * of other incidents, other rules' writes.
   */
  lemma {:induction false} LadderIsClimbed(rule: string, levels: seq<EscalationLevel>, steps: seq<Step>, from: nat,
                                           n: string, level: nat)
    requires from <= |steps| && AllForeignTo(steps, rule)
    requires forall k :: from <= k < |steps| ==> LetsClimb(levels, Exec(rule, steps[..k]), steps[k], n)
    requires Climbing(rule, levels, Exec(rule, steps[..from]), n, level)
    ensures Climbing(rule, levels, Exec(rule, steps), n,
                     Min(level + Overdues(rule, levels, steps, from, n), |levels|))
  {
    if |steps| == from {
      assert steps[..from] == steps;
    } else {
      var init, last := steps[..|steps| - 1], steps[|steps| - 1];
      assert init[..from] == steps[..from];
      assert forall k :: from <= k < |init| ==> init[..k] == steps[..k];
      LadderIsClimbed(rule, levels, init, from, n, level);
      KeptOverRuns(rule, init);
      StaysClimbing(rule, levels, Exec(rule, init), last, n,
                    Min(level + Overdues(rule, levels, init, from, n), |levels|));
    }
  }

  /** A firing starts a climb at the bottom: its incident is the active one, open, and at level zero. */
  lemma FiringStartsClimb(rule: string, levels: seq<EscalationLevel>, w: World, step: Step)
    requires WellStored(rule, w) && Proper(rule, step)
    requires step.Reconcile? && w.status.state != Firing && Apply(rule, w, step).status.state == Firing
    ensures var w', n := Apply(rule, w, step), IncidentName(rule, step.now);
      && Climbing(rule, levels, w', n, 0)
      && w'.incidents[n]
           == Incident(rule, step.answer.message, IncidentFiring, Some(step.now), None, None, 0)
  {
    FreshName(rule, w, step.now);
  }
}
