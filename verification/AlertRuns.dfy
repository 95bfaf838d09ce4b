/**
 * Runs of one rule: reconciles in any order with edits of the rule's spec, manual
 * acknowledgements and resolutions, and other rules writing their own incidents.
 */
module AlertRuns {
  import opened Wrappers
  import opened IncidentNames
  import opened AlertModel

  /**
   * `Reconcile` carries the spec and the channel directory in force, so both may be edited between
   * any two steps. `Foreign` is a write by the reconciler of the rule `owner` to an incident it fired
   * at `at`.
   */
  datatype Step =
    | Reconcile(spec: RuleSpec, directory: map<string, bool>, now: nat, answer: Answer, jitter: nat)
    | Acknowledge(incident: string, now: nat)
    | ResolveByHand(incident: string, now: nat)
    | Foreign(owner: string, at: nat, written: Incident, now: nat)

  function Apply(rule: string, w: World, step: Step): World {
    match step
    case Reconcile(spec, directory, now, answer, jitter) =>
      Reconciled(Env(rule, directory), spec, w, now, answer, jitter).world
    case Acknowledge(incident, now) => w.(incidents := Acknowledged(w.incidents, incident, now))
    case ResolveByHand(incident, now) => w.(incidents := ManuallyResolved(w.incidents, incident, now))
    case Foreign(owner, at, written, _) => w.(incidents := w.incidents[IncidentName(owner, at) := written])
  }

  /** A rule that was never reconciled, with an empty incident store. */
  const START := World(FRESH, map[], [])

  function Exec(rule: string, steps: seq<Step>): World {
    if steps == [] then START
    else Apply(rule, Exec(rule, steps[..|steps| - 1]), steps[|steps| - 1])
  }

  /** The clock never goes back along the run. */
  ghost predicate ClockMonotone(steps: seq<Step>) {
    forall i, j :: 0 <= i <= j < |steps| ==> steps[i].now <= steps[j].now
  }

  /** The step is a reconcile that evaluates in the world it finds. */
  predicate Evaluates(w: World, step: Step) {
    step.Reconcile? && !Muted(step.spec, step.now) && !Gated(w.status, step.spec, step.now)
  }

  predicate Mutes(step: Step) {
    step.Reconcile? && Muted(step.spec, step.now)
  }

  /** The step is no reconcile, or its effective evaluation interval is at least `i`. */
  predicate IntervalAtLeast(step: Step, i: int) {
    step.Reconcile? ==> Interval(step.spec) >= i
  }

  ghost predicate IntervalsAtLeast(steps: seq<Step>, i: int) {
    forall k :: 0 <= k < |steps| ==> IntervalAtLeast(steps[k], i)
  }

  /** Other rules only write incidents of their own. */
  predicate ForeignTo(step: Step, name: string) {
    step.Foreign? ==> step.owner != name && step.written.ruleRef == step.owner
  }

  ghost predicate AllForeignTo(steps: seq<Step>, name: string) {
    forall k :: 0 <= k < |steps| ==> ForeignTo(steps[k], name)
  }
}
