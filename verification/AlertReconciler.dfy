/**
 * The reconciler as the program runs it: a rule object whose spec and status are overwritten,
 * an incident store, a channel store and a notifier. Each method is proved equal to its
 * transition function in AlertModel, about which AlertHistory, AlertIncidents and
 * AlertEscalation prove what holds over runs.
 */
module AlertReconciler {
  import opened Wrappers
  import opened IncidentNames
  import opened AlertModel

  class AlertRule {
    const name: string
    var spec: RuleSpec
    var status: RuleStatus

    constructor (name: string, spec: RuleSpec)
      ensures this.name == name && this.spec == spec && status == FRESH
    {
      this.name := name;
      this.spec := spec;
      this.status := FRESH;
    }
  }

  /** The condition `k` is the first of its kind, or there is none if `k` is the length of the list. */
  lemma {:induction false} UpsertedExactly(conditions: seq<Condition>, c: Condition, k: nat)
    requires k <= |conditions| && (k < |conditions| ==> conditions[k].kind == c.kind)
    requires forall j :: 0 <= j < k ==> conditions[j].kind != c.kind
    ensures Upserted(conditions, c) == if k < |conditions| then conditions[k := c] else conditions + [c]
  {
    if k == 0 {
    } else {
      var first, rest := conditions[0], conditions[1..];
      UpsertedExactly(rest, c, k - 1);
      assert Upserted(conditions, c) == [first] + Upserted(rest, c);
      if k < |conditions| {
        assert conditions[k := c] == [first] + rest[k - 1 := c];
      } else {
        assert conditions + [c] == [first] + (rest + [c]);
      }
    }
  }

  /** Overwrites the condition of the same kind in place, or appends. */
  method UpsertCondition(conditions: seq<Condition>, c: Condition) returns (r: seq<Condition>)
    ensures r == Upserted(conditions, c)
  {
    var i := 0;
    while i < |conditions|
      invariant 0 <= i <= |conditions|
      invariant Upserted(conditions, c) == conditions[..i] + Upserted(conditions[i..], c)
    {
      if conditions[i].kind == c.kind {
        assert conditions[i := c] == conditions[..i] + ([c] + conditions[i..][1..]);
        return conditions[i := c];
      }
      assert conditions[i..][1..] == conditions[i + 1..];
      assert conditions[..i] + ([conditions[i]] + Upserted(conditions[i + 1..], c))
          == conditions[..i + 1] + Upserted(conditions[i + 1..], c);
      i := i + 1;
    }
    return conditions + [c];
  }

  class AlertRuleReconciler {
    var incidents: map<string, Incident>
    var channels: map<string, bool>
    var sent: seq<Notification>

    constructor (channels: map<string, bool>)
      ensures incidents == map[] && this.channels == channels && sent == []
    {
      incidents := map[];
      this.channels := channels;
      sent := [];
    }

    ghost function WorldOf(status: RuleStatus): World
      reads this
    {
      World(status, incidents, sent)
    }

    ghost function EnvOf(rule: AlertRule): Env
      reads this
    {
      Env(rule.name, channels)
    }

    /** One notifier call for each listed channel that resolves. */
    method Notify(refs: seq<string>, onlyEnabled: bool, incident: string, level: nat)
      modifies this`sent
      ensures sent == old(sent) + Dispatch(refs, channels, onlyEnabled, incident, level)
    {
      for i := 0 to |refs|
        invariant sent == old(sent) + Dispatch(refs[..i], channels, onlyEnabled, incident, level)
      {
        assert refs[..i + 1][..i] == refs[..i];
        if refs[i] in channels && (!onlyEnabled || channels[refs[i]]) {
          sent := sent + [Notification(refs[i], incident, level)];
        }
      }
      assert refs[..|refs|] == refs;
    }

    method FireAlert(rule: AlertRule, s: RuleStatus, now: nat, message: string) returns (status: RuleStatus)
      modifies this`incidents, this`sent
      ensures WorldOf(status) == old(Fire(EnvOf(rule), rule.spec, WorldOf(s), now, message))
    {
      status := s.(state := Firing, lastFiredAt := Some(now), totalFirings := s.totalFirings + 1, pendingSince := None);
      var name := IncidentName(rule.name, now);
      if name !in incidents {
        incidents := incidents[name := NewIncident(rule.name, message, now)];
      }
      status := status.(activeIncident := name);
      Notify(rule.spec.channels, true, name, 0);
    }

    method ResolveAlert(s: RuleStatus, now: nat) returns (status: RuleStatus)
      modifies this`incidents
      ensures WorldOf(status) == old(AlertModel.Resolve(WorldOf(s), now))
    {
      status := s.(state := Resolved, lastResolvedAt := Some(now));
      if status.activeIncident != "" {
        if status.activeIncident in incidents {
          var incident := incidents[status.activeIncident];
          incidents := incidents[status.activeIncident := Close(incident, now)];
        }
        status := status.(activeIncident := "");
      }
    }

    method CheckEscalation(rule: AlertRule, s: RuleStatus, now: nat)
      modifies this`incidents, this`sent
      ensures WorldOf(s) == old(Escalate(EnvOf(rule), rule.spec, WorldOf(s), now))
    {
      if rule.spec.escalation == [] || s.activeIncident == "" || s.activeIncident !in incidents {
        return;
      }
      var incident := incidents[s.activeIncident];
      if incident.status == IncidentAcknowledged || incident.escalationLevel >= |rule.spec.escalation| {
        return;
      }
      var level := rule.spec.escalation[incident.escalationLevel];
      if incident.firedAt.Some? && now - incident.firedAt.value >= level.after {
        incident := incident.(escalationLevel := incident.escalationLevel + 1);
        incidents := incidents[s.activeIncident := incident];
        Notify(level.channels, false, s.activeIncident, incident.escalationLevel);
      }
    }

    /** The state switch of a successful evaluation, on the local copy of the status. */
    method SwitchState(rule: AlertRule, s: RuleStatus, now: nat, answer: Answer) returns (status: RuleStatus)
      requires !answer.Error?
      modifies this`incidents, this`sent
      ensures WorldOf(status) == old(Transition(EnvOf(rule), rule.spec, WorldOf(s), now, answer))
    {
      status := s;
      if answer.Met? {
        match status.state {
          case Unset | Inactive | Resolved =>
            if rule.spec.forDuration > 0 {
              status := status.(state := Pending, pendingSince := Some(now));
            } else {
              status := FireAlert(rule, status, now, answer.message);
            }
          case Pending =>
            if status.pendingSince.Some? && now - status.pendingSince.value >= rule.spec.forDuration {
              status := FireAlert(rule, status, now, answer.message);
            }
          case Firing =>
            CheckEscalation(rule, status, now);
          case Silenced =>
        }
      } else {
        match status.state {
          case Pending => status := status.(state := Inactive, pendingSince := None);
          case Firing => status := ResolveAlert(status, now);
          case _ =>
        }
      }
    }

    /** The evaluation part of a reconcile, on the local copy of the status. */
    method EvaluateRule(rule: AlertRule, s: RuleStatus, now: nat, answer: Answer) returns (status: RuleStatus)
      modifies this`incidents, this`sent
      ensures WorldOf(status) == old(Evaluated(EnvOf(rule), rule.spec, WorldOf(s), now, answer))
    {
      status := s.(lastEvalAt := Some(now), evalCount := s.evalCount + 1);
      if answer.Error? {
        var conditions := UpsertCondition(status.conditions,
                                          Condition("Evaluated", "False", "EvalError", answer.message, now));
        status := status.(conditions := conditions);
      } else {
        status := SwitchState(rule, status, now, answer);
      }
    }

    method Reconcile(rule: AlertRule, now: nat, answer: Answer, jitter: nat) returns (requeueAfter: int)
      modifies rule, this`incidents, this`sent
      ensures old(Reconciled(EnvOf(rule), rule.spec, WorldOf(rule.status), now, answer, jitter))
           == Outcome(WorldOf(rule.status), rule.spec, requeueAfter)
    {
      var status := rule.status;
      if !rule.spec.enabled {
        status := status.(state := Inactive);
        rule.status := status;
        return HOUR;
      }
      if rule.spec.silenced {
        if rule.spec.silenceUntil.Some? && now > rule.spec.silenceUntil.value {
          rule.spec := rule.spec.(silenced := false);
        } else {
          status := status.(state := Silenced);
          rule.status := status;
          return 5 * MINUTE;
        }
      }
      var evalInterval := rule.spec.evalInterval;
      if evalInterval == 0 {
        evalInterval := MINUTE;
      }
      if status.lastEvalAt.Some? && now - status.lastEvalAt.value < evalInterval {
        return evalInterval - (now - status.lastEvalAt.value);
      }
      rule.status := EvaluateRule(rule, status, now, answer);
      return if answer.Error? then 5 * SECOND + jitter else evalInterval;
    }

    /** The handlers answer not-found for an unknown incident and change nothing. */
    method AcknowledgeIncident(name: string, now: nat) returns (found: bool)
      modifies this`incidents
      ensures found == (name in old(incidents))
      ensures incidents == old(Acknowledged(incidents, name, now))
    {
      found := name in incidents;
      if found {
        var incident := incidents[name];
        incident := incident.(status := IncidentAcknowledged, acknowledgedAt := Some(now));
        incidents := incidents[name := incident];
      }
    }

    method ResolveIncident(name: string, now: nat) returns (found: bool)
      modifies this`incidents
      ensures found == (name in old(incidents))
      ensures incidents == old(ManuallyResolved(incidents, name, now))
    {
      found := name in incidents;
      if found {
        var incident := incidents[name];
        incident := incident.(status := IncidentResolved, resolvedAt := Some(now));
        incidents := incidents[name := incident];
      }
    }
  }
}
