/**
 * Values and transition functions of the alert-rule reconciler. Times are nanoseconds since
 * the epoch; durations may be negative, as parsed duration strings may be.
 */
module AlertModel {
  import opened Wrappers
  import opened IncidentNames

  const MINUTE: nat := 60 * SECOND
  const HOUR: nat := 60 * MINUTE

  datatype RuleState = Unset | Inactive | Pending | Firing | Resolved | Silenced

  datatype EscalationLevel = EscalationLevel(after: int, channels: seq<string>)

  /** `escalation` is empty both for a missing policy and for one without levels. */
  datatype RuleSpec = RuleSpec(
    enabled: bool,
    silenced: bool,
    silenceUntil: Option<nat>,
    evalInterval: int,
    forDuration: int,
    channels: seq<string>,
    escalation: seq<EscalationLevel>)

  datatype Condition = Condition(kind: string, status: string, reason: string, message: string, at: nat)

  /** `activeIncident` is the empty string when there is none. */
  datatype RuleStatus = RuleStatus(
    state: RuleState,
    lastEvalAt: Option<nat>,
    lastFiredAt: Option<nat>,
    lastResolvedAt: Option<nat>,
    pendingSince: Option<nat>,
    activeIncident: string,
    totalFirings: nat,
    evalCount: nat,
    conditions: seq<Condition>)

  const FRESH := RuleStatus(Unset, None, None, None, None, "", 0, 0, [])

  datatype IncidentStatus = IncidentFiring | IncidentAcknowledged | IncidentResolved

  datatype Incident = Incident(
    ruleRef: string,
    description: string,
    status: IncidentStatus,
    firedAt: Option<nat>,
    acknowledgedAt: Option<nat>,
    resolvedAt: Option<nat>,
    escalationLevel: nat)

  /** One call of the notifier: the channel, the incident and the level it carried. */
  datatype Notification = Notification(channel: string, incident: string, level: nat)

  /** What the condition evaluator answers. */
  datatype Answer = Met(message: string) | NotMet | Error(message: string)

  /** The rule's name, and the channel store: each known channel with its enabled flag. */
  datatype Env = Env(name: string, directory: map<string, bool>)

  datatype World = World(status: RuleStatus, incidents: map<string, Incident>, sent: seq<Notification>)

  datatype Outcome = Outcome(world: World, spec: RuleSpec, requeueAfter: int)

  function Interval(spec: RuleSpec): int {
    if spec.evalInterval == 0 then MINUTE else spec.evalInterval
  }

  predicate SilenceHolds(spec: RuleSpec, now: nat) {
    spec.silenced && !(spec.silenceUntil.Some? && now > spec.silenceUntil.value)
  }

  /** A reconcile that neither evaluates nor waits: the rule is disabled or silenced. */
  predicate Muted(spec: RuleSpec, now: nat) {
    !spec.enabled || SilenceHolds(spec, now)
  }

  predicate Gated(status: RuleStatus, spec: RuleSpec, now: nat) {
    status.lastEvalAt.Some? && now - status.lastEvalAt.value < Interval(spec)
  }

  /** The notifications a channel list causes; unknown channels are skipped. */
  function Dispatch(refs: seq<string>, directory: map<string, bool>, onlyEnabled: bool, incident: string, level: nat)
    : seq<Notification>
  {
    if refs == [] then [] else
      var last := refs[|refs| - 1];
      Dispatch(refs[..|refs| - 1], directory, onlyEnabled, incident, level)
      + if last in directory && (!onlyEnabled || directory[last])
        then [Notification(last, incident, level)] else []
  }

  function Upserted(conditions: seq<Condition>, c: Condition): seq<Condition> {
    if conditions == [] then [c]
    else if conditions[0].kind == c.kind then [c] + conditions[1..]
    else [conditions[0]] + Upserted(conditions[1..], c)
  }

  function NewIncident(rule: string, message: string, now: nat): Incident {
    Incident(rule, message, IncidentFiring, Some(now), None, None, 0)
  }

  /** Creating an incident under a name already taken fails, and the failure is ignored. */
  function Created(incidents: map<string, Incident>, name: string, incident: Incident): map<string, Incident> {
    if name in incidents then incidents else incidents[name := incident]
  }

  function Fire(env: Env, spec: RuleSpec, w: World, now: nat, message: string): World {
    var name := IncidentName(env.name, now);
    World(
      w.status.(state := Firing, lastFiredAt := Some(now), totalFirings := w.status.totalFirings + 1,
                pendingSince := None, activeIncident := name),
      Created(w.incidents, name, NewIncident(env.name, message, now)),
      w.sent + Dispatch(spec.channels, env.directory, true, name, 0))
  }

  function Close(incident: Incident, now: nat): Incident {
    incident.(status := IncidentResolved, resolvedAt := Some(now))
  }

  function Resolve(w: World, now: nat): World {
    var name := w.status.activeIncident;
    World(
      w.status.(state := Resolved, lastResolvedAt := Some(now), activeIncident := ""),
      if name != "" && name in w.incidents then w.incidents[name := Close(w.incidents[name], now)] else w.incidents,
      w.sent)
  }

  /** The guards under which the next escalation level is due. */
  predicate EscalationDue(spec: RuleSpec, w: World, now: nat) {
    var name := w.status.activeIncident;
    && name != ""
    && name in w.incidents
    && var i := w.incidents[name];
       && i.status != IncidentAcknowledged
       && i.escalationLevel < |spec.escalation|
       && i.firedAt.Some?
       && now - i.firedAt.value >= spec.escalation[i.escalationLevel].after
  }

  function Escalate(env: Env, spec: RuleSpec, w: World, now: nat): World {
    if !EscalationDue(spec, w, now) then w else
      var name := w.status.activeIncident;
      var i := w.incidents[name];
      World(
        w.status,
        w.incidents[name := i.(escalationLevel := i.escalationLevel + 1)],
        w.sent + Dispatch(spec.escalation[i.escalationLevel].channels, env.directory, false,
                          name, i.escalationLevel + 1))
  }

  /** The state switch after a successful evaluation. */
  function Transition(env: Env, spec: RuleSpec, w: World, now: nat, answer: Answer): World
    requires !answer.Error?
  {
    match answer
    case Met(message) =>
      (match w.status.state
       case Unset | Inactive | Resolved =>
         if spec.forDuration > 0
         then w.(status := w.status.(state := Pending, pendingSince := Some(now)))
         else Fire(env, spec, w, now, message)
       case Pending =>
         if w.status.pendingSince.Some? && now - w.status.pendingSince.value >= spec.forDuration
         then Fire(env, spec, w, now, message)
         else w
       case Firing => Escalate(env, spec, w, now)
       case Silenced => w)
    case NotMet =>
      (match w.status.state
       case Pending => w.(status := w.status.(state := Inactive, pendingSince := None))
       case Firing => Resolve(w, now)
       case _ => w)
  }

  function Counted(w: World, now: nat): World {
    w.(status := w.status.(lastEvalAt := Some(now), evalCount := w.status.evalCount + 1))
  }

  function ErrorNoted(w: World, now: nat, message: string): World {
    var c := Condition("Evaluated", "False", "EvalError", message, now);
    w.(status := w.status.(conditions := Upserted(w.status.conditions, c)))
  }

  /** One evaluation; a failed one changes nothing but the counters and the condition list. */
  function Evaluated(env: Env, spec: RuleSpec, w: World, now: nat, answer: Answer): World {
    if answer.Error? then ErrorNoted(Counted(w, now), now, answer.message)
    else Transition(env, spec, Counted(w, now), now, answer)
  }

  /** One call of the reconciler on one rule; `jitter` is the random part of the error backoff. */
  function Reconciled(env: Env, spec: RuleSpec, w: World, now: nat, answer: Answer, jitter: nat): Outcome {
    if !spec.enabled then
      Outcome(w.(status := w.status.(state := Inactive)), spec, HOUR)
    else if SilenceHolds(spec, now) then
      Outcome(w.(status := w.status.(state := Silenced)), spec, 5 * MINUTE)
    else
      var spec1 := spec.(silenced := false);
      if Gated(w.status, spec, now) then
        Outcome(w, spec1, Interval(spec) - (now - w.status.lastEvalAt.value))
      else
        Outcome(Evaluated(env, spec, w, now, answer), spec1,
                if answer.Error? then 5 * SECOND + jitter else Interval(spec))
  }

  function Acknowledged(incidents: map<string, Incident>, name: string, now: nat): map<string, Incident> {
    if name in incidents
    then incidents[name := incidents[name].(status := IncidentAcknowledged, acknowledgedAt := Some(now))]
    else incidents
  }

  function ManuallyResolved(incidents: map<string, Incident>, name: string, now: nat): map<string, Incident> {
    if name in incidents then incidents[name := Close(incidents[name], now)] else incidents
  }
}
