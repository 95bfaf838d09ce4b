# AxiomNizam core, modelled and verified in Dafny

This project models six stateful parts of the AxiomNizam platform and proves what holds of them
over all inputs and all runs. Check it with `dafny verify dfyconfig.toml`.

| part | files | what is proved, in short |
|---|---|---|
| Alert rules | `IncidentNames`, `AlertModel`, `AlertReconciler`, `AlertRuns`, `AlertHistory`, `AlertIncidents`, `AlertEscalation`, `AlertAcknowledgement` | the rule's state is exactly what a declarative reading of its evaluation history says; one incident per firing; the link between state and incidents, with the exact steps that break it; the escalation ladder, every notification it accounts for, and what ends it |
| Anomaly detection | `Statistics`, `Evaluator`, `AnomalyBound` | a window of n samples can fire at sensitivity s exactly when n - 1 > s * s |
| Admission | `PathUtil`, `Defaults`, `Admission`, `AdmissionRuns`, `AdmissionAnswers` | exactly when a default changes nothing and which defaults commute, order independence and idempotence of default passes, defaults meet requirements, immutable fields never change, and exactly what is refused and why |
| Rate limiting | `RateLimiter`, `RateLimiterRuns` | callers are independent, eviction is unobservable, a full caller is denied for exactly a minute, the exact worst case of any span of k minutes |
| Endpoint table | `GoStrings`, `EndpointTable`, `EndpointRuns`, `EndpointAnswers` | over every run endpoints stay unique exactly as long as no update asks for an endpoint another API has; what an endpoint is, and how each request is answered, by method and path |
| Access log | `AccessLog` | the ring refines the history's latest entries, the statistics summarise all of it |
| Antivirus | `Verdicts`, `Antivirus`, `ScanProtocol` | the verdict is a join over layers; counters and threat log agree at every quiescent point of any interleaving |

Code that changes state is modelled by classes and loops (`AlertReconciler`, `RateLimiter.CustomApi`,
`EndpointTable.APIBuilder`, `AccessLog.Store`, `Antivirus.Engine`, `Admission.Chain`,
`PathUtil.ObjectRef`); each method is proved equal to a specification function or a ghost history,
and the properties over runs are proved about those.

## Where the code and its comments differ

The model follows the code.

- `internal/admission/pathutil.go:61-63` says an intermediate value that is no map makes the call a
  no-op; lines 76-80 replace it by a fresh map. `Defaults.ScalarIsReplaced` shows it for all such
  objects, and `Defaults.SetChangesNothingExactly` says exactly when a call changes nothing.
- `internal/alerting/reconciler.go:90` says evaluation continues once a silence has expired. It does,
  but no case of the switch at 144-176 leaves the silenced state, so the rule never fires again until
  it has been disabled once (`AlertHistory.Stuck`).
- `internal/alerting/reconciler.go:78-101`: disabling or silencing a firing rule leaves its incident
  open (`AlertIncidents.DisablingBreaksLink`). `AlertIncidents.LinkKeptExactly` shows these are the
  only steps that do.
- `internal/antivirus/engine.go:338-339` says the verdict changes if all layers fail; it stays clean
  (`Verdicts.AllFailingIsClean`).
- `internal/apibuilder/api_crud.go:250-395` writes an update into the stored record before checking
  it, so a refused update is nevertheless in the table (`EndpointRuns.RefusedUpdateBreaks`);
  `EndpointRuns.EndpointsUniqueExactly` says which runs are safe.
- `internal/apibuilder/api_crud.go:1097` rounds the retry delay down, so waiting exactly that long can
  be too short (`RateLimiterRuns.RetryTooEarly`); `RateLimiterRuns.RetryHonoured` says exactly when.
- `internal/alerting/handlers.go:308-331` with `internal/alerting/reconciler.go:270`: resolving an
  incident by hand takes its acknowledgement back, and it is escalated again
  (`AlertAcknowledgement.ResolvedByHandClimbs`); otherwise an acknowledged one never is
  (`AlertAcknowledgement.AcknowledgedStops`).
- `internal/apibuilder/api_crud.go:753-765` joins method and path by a blank, and the method of a new
  GraphQL API is not checked, so two different endpoints can have one signature
  (`EndpointAnswers.BlankMethodCollides`); `EndpointAnswers.SignaturesEqualExactly` says which.
- `internal/admission/plugins.go:48-68`: a timestamp mutator can take away presence, by overwriting
  an object under `metadata.lastModified`, or on a deletion by replacing a scalar `metadata`
  (`AdmissionRuns.StampKeepsPresenceExactly`).

## Model

| member | source | states |
|---|---|---|
| `AlertReconciler.AlertRuleReconciler.Reconcile` | internal/alerting/reconciler.go:67-187 | one reconcile rewrites status, spec, incidents and sent notifications as the transition function says, and asks for the same requeue delay |
| `AlertReconciler.AlertRuleReconciler.EvaluateRule` | internal/alerting/reconciler.go:114-139 | an evaluation counts and stamps itself; a failed one only reports a condition, a good one goes through the switch |
| `AlertReconciler.AlertRuleReconciler.SwitchState` | internal/alerting/reconciler.go:140-177 | the switch over answer and state |
| `AlertReconciler.AlertRuleReconciler.FireAlert` | internal/alerting/reconciler.go:190-234 | firing stamps and counts, creates the incident unless its name is taken, and notifies the rule's enabled channels |
| `AlertReconciler.AlertRuleReconciler.ResolveAlert` | internal/alerting/reconciler.go:237-252 | resolving closes the active incident if it exists and forgets its name |
| `AlertReconciler.AlertRuleReconciler.CheckEscalation` | internal/alerting/reconciler.go:255-299 | at most the next level of the active incident, with its notifications |
| `AlertReconciler.AlertRuleReconciler.Notify` | internal/alerting/reconciler.go:302-317 | one notification for each listed channel that resolves, in list order |
| `AlertReconciler.UpsertCondition` | internal/alerting/reconciler.go:332-340 | the condition of the same kind is replaced in place, or the new one appended |
| `AlertReconciler.UpsertedExactly` | internal/alerting/reconciler.go:332-340 | said by index: the first condition of the kind is replaced, all others stay, and without one the new condition comes last |
| `AlertReconciler.AlertRuleReconciler.AcknowledgeIncident` | internal/alerting/handlers.go:282-306 | only a known incident changes, to acknowledged |
| `AlertReconciler.AlertRuleReconciler.ResolveIncident` | internal/alerting/handlers.go:308-331 | only a known incident changes, to resolved |
| `IncidentNames.NamesDistinct` | internal/alerting/reconciler.go:204 | two incident names are equal exactly for the same rule name and the same whole second |
| `IncidentNames.DecimalRoundTrip` | internal/alerting/reconciler.go:204 | the decimal rendering of a time can be read back |
| `AlertHistory.StateMatchesHistory` | internal/alerting/reconciler.go:77-177 | over every run with a clock that does not go back, with spec edits, disabling, silencing and manual steps: the rule is firing exactly when some unbroken stretch of true evaluations had lasted for the duration in force at one of them, pending exactly when there is a stretch that has not, silenced exactly when a silence was seen and no disabling since; the history is read off the spec's fields and the times |
| `AlertHistory.QuietStateMatchesHistory` | internal/alerting/reconciler.go:165-177 | the remaining states over every run: unset exactly before anything but false or failed evaluations, resolved exactly since the false evaluation that ended a firing, whose time it keeps, otherwise inactive |
| `AlertHistory.PendingFiresAfterHold` | internal/alerting/reconciler.go:155-159 | a rule that goes from pending to firing became pending at the first evaluation of an unbroken stretch, at least the for-duration in force ago |
| `AlertHistory.EvaluationRate` | internal/alerting/reconciler.go:103-116 | if every effective interval is at least i, then (evaluations - 1) * i is at most the time from the first evaluation to the last, failed ones included |
| `AlertHistory.ReconcileDecides` | internal/alerting/reconciler.go:78-116 | by the fields of the spec: a disabled rule waits an hour; a silence holds without an end or up to and including it, changing nothing but the state, and is looked at every five minutes; otherwise the silence is lifted and an evaluation is counted at its time once the interval, a minute by default, has passed |
| `AlertHistory.SilenceIsQuiet` | internal/alerting/reconciler.go:78-101 | along every stretch of a run whose reconciles find the rule disabled or in its silence, nothing is evaluated, fired or sent |
| `AlertHistory.RequeueOpensTheGate` | internal/alerting/reconciler.go:109-112 | helper: the delay asked for by a skipped reconcile is exactly the time until an evaluation is due |
| `AlertHistory.ConditionIsLatestFailure` | internal/alerting/reconciler.go:123-135 | the condition list is the latest failed evaluation, which later good ones do not clear |
| `AlertIncidents.OneIncidentPerFiring` | internal/alerting/reconciler.go:190-230 | with effective intervals of a second or more, over every run, disabling and silencing included, the store holds one incident of the rule for each firing, named after its firing time, and the active one is the last fired |
| `AlertIncidents.CollisionFreeExactly` | internal/alerting/reconciler.go:204 | names never collide over all runs with intervals of at least i exactly when i is at least one second |
| `AlertIncidents.KeptOverRuns` | internal/alerting/reconciler.go:204-221 | over every run, whatever the intervals: the incidents of a rule are exactly those named for it, and the active one is in the store |
| `AlertIncidents.LinkKeptExactly` | internal/alerting/reconciler.go:78-101 | firing if and only if an incident is active, and every other incident resolved: a step keeps this exactly when it is not a reconcile that finds a firing rule disabled or silenced; no assumption on intervals |
| `AlertIncidents.LinkOverRuns` | internal/alerting/reconciler.go:143-252 | along every run the link holds at every point exactly when no such reconcile occurs |
| `AlertIncidents.DisablingBreaksLink` | internal/alerting/reconciler.go:78-85 | a rule that fires and is then disabled is inactive with an active incident that is not resolved |
| `AlertEscalation.LadderOverRuns` | internal/alerting/reconciler.go:190-299 | with effective intervals of a second or more, over every run, spec and channels edited at will: an incident at level k was brought there by exactly k + 1 reconciles, the first of which fired it while each later one found the next delay passed, and what was sent about it is what these reconciles had to send by the spec and channels of their time, once each and in order |
| `AlertEscalation.LevelRisesExactly` | internal/alerting/reconciler.go:269-285 | a step raises an incident's level by one exactly if it is an evaluation to true of a firing rule that finds the active incident's next level due, and otherwise leaves the level alone; no assumption on intervals |
| `AlertEscalation.LadderIsClimbed` | internal/alerting/reconciler.go:274-287 | along any run in which no reconcile mutes the rule, evaluates to false or sees another ladder, and nobody acknowledges the incident, whatever else happens in between: it climbs at least one level for each evaluation past all delays, until the top |
| `AlertEscalation.DispatchReaches` | internal/alerting/reconciler.go:289-316 | notified are exactly the listed channels the store knows and, for a firing, those enabled |
| `AlertEscalation.DispatchConcat` | internal/alerting/reconciler.go:302-317 | channels are notified in the order of the list, part after part |
| `AlertEscalation.DispatchOne` | internal/alerting/reconciler.go:302-317 | one channel is notified once, if it is known and, for a firing, enabled |
| `AlertEscalation.FiringStartsClimb` | internal/alerting/reconciler.go:190-230 | a rule that begins to fire has an open incident, neither acknowledged nor resolved, at the bottom of the ladder, which is where the climb starts |
| `AlertAcknowledgement.AcknowledgedStops` | internal/alerting/reconciler.go:269-272 | with effective intervals of a second or more, on every run: once an incident of the rule is acknowledged and as long as nobody resolves it by hand, its level stays and nothing more is sent about it |
| `AlertAcknowledgement.ResolvedByHandClimbs` | internal/alerting/reconciler.go:269-285 | a run in which an acknowledged incident is resolved by hand and then escalated |
| `AlertAcknowledgement.StatusIsLastTouch` | internal/alerting/handlers.go:282-331 | over every run, the status of an incident and its time are those of the last acknowledgement, manual resolution or resolving evaluation, and firing before any |
| `Statistics.ComputeStats` | internal/alerting/evaluator.go:237-255 | mean and population standard deviation of the samples, zeros for none |
| `Statistics.LastSampleBound` | internal/alerting/evaluator.go:141-153 | the square of the last sample's deviation is at most (n - 1) times the variance |
| `Evaluator.ExceedsMeans` | internal/alerting/evaluator.go:152-153 | comparing with s standard deviations is a comparison of squares |
| `Evaluator.EvalAnomaly` | internal/alerting/evaluator.go:129-161 | fires exactly when the last of two or more samples deviates by more than the sensitivity, three if unset; reports that sample and the upper bound |
| `Evaluator.EvalRateOfChange` | internal/alerting/evaluator.go:163-196 | fires exactly when the change from first to last exceeds the percentage, fifty if unset; a baseline of zero counts as no change; reports change and percentage |
| `Evaluator.Evaluate` | internal/alerting/evaluator.go:78-95 | for each kind of condition the answer, the reported value and threshold, and when it fails; a threshold condition fires by the comparison its operator names, greater-than for an unknown one |
| `Evaluator.CompareLaws` | internal/alerting/evaluator.go:216-235 | opposite operators answer oppositely, swapping the sides swaps the direction, and shifting value and threshold together changes nothing |
| `Evaluator.ChangeLeavesBand` | internal/alerting/evaluator.go:163-196 | the rate-of-change check fires exactly when the last sample leaves a band around the first, half of it to either side by default |
| `Evaluator.EvaluateAll` | internal/alerting/evaluator.go:98-109 | fires exactly when all conditions do; otherwise the first that fails or does not fire decides, and what it fails with or reports is the answer |
| `AnomalyBound.AnomalyBoundExact` | internal/alerting/evaluator.go:137-153 | some window of n samples fires at sensitivity s exactly when n - 1 > s * s |
| `AnomalyBound.DefaultNeedsElevenSamples` | internal/alerting/evaluator.go:147-153 | the default never fires on ten samples or fewer, and can on eleven |
| `AnomalyBound.AnomalyIsUnitFree` | internal/alerting/evaluator.go:141-153 | rescaling and shifting the metric does not change the answer |
| `PathUtil.SplitRoundTrip` | internal/admission/pathutil.go:14-19 | a path is cut at every dot, and its segments can be joined back, so no two paths share them |
| `PathUtil.JoinRoundTrip` | internal/admission/pathutil.go:14-19 | every list of names without dots, but for one empty name, is the split of its dotted path |
| `PathUtil.Find` | internal/admission/pathutil.go:23-39 | the walk finds the value at a path through objects only |
| `PathUtil.ObjectRef.Set` | internal/admission/pathutil.go:64-83 | the walk with writes through a moving reference equals the recursive definition |
| `PathUtil.IntermediateIsHarmless` | internal/admission/pathutil.go:76-80 | creating an intermediate object on the way does not change what setting the path yields |
| `PathUtil.DeepEqual` | internal/admission/pathutil.go:89-107 | equality after an empty object at the top is taken for null, hence an equivalence |
| `Defaults.SetChangesNothingExactly` | internal/admission/pathutil.go:64-83 | setting a default changes nothing exactly if the path is empty or present, or already has the very value |
| `Defaults.ScalarIsReplaced` | internal/admission/pathutil.go:61-80 | a present intermediate value that is no map never makes the call a no-op: the object changes, and a map now stands there |
| `Defaults.SetMakesPresent` | internal/admission/pathutil.go:64-83 | a default with a present value makes its path present |
| `Defaults.SetKeepsPresence` | internal/admission/pathutil.go:44-83 | whatever was present stays present under any default, even one that replaces a scalar on its way |
| `Defaults.SetKeepsDivergent` | internal/admission/pathutil.go:64-83 | a default leaves what is found at every diverging path alone |
| `Defaults.CommuteExactly` | internal/admission/chain.go:137-139 | two defaults commute on every object exactly when they are compatible, a condition on their paths and values alone |
| `Defaults.DivergentCompatible` | internal/admission/chain.go:137-139 | defaults at diverging paths are compatible whatever their values |
| `Defaults.OrderIrrelevant` | internal/admission/chain.go:165-172 | every permutation of pairwise compatible defaults yields the same object |
| `Defaults.PassIsIdempotent` | internal/admission/chain.go:92-99 | a second pass of any list of defaults changes nothing, whatever their paths and values |
| `Admission.Chain.RegisterMutator` | internal/admission/chain.go:140-144 | helper: appends |
| `Admission.Chain.RegisterValidator` | internal/admission/chain.go:147-151 | helper: appends |
| `Admission.Chain.Admit` | internal/admission/chain.go:158-188 | the object and the error equal those of the fold with early abort |
| `Admission.Chain.Mutate` | internal/admission/plugins.go:30-69 | the effect of a default, a timestamp or any other mutator on the shared object |
| `Admission.Check` | internal/admission/plugins.go:87-156 | the answer of each bundled validator, or any other |
| `AdmissionRuns.AdmittedExactly` | internal/admission/chain.go:165-187 | admitted exactly when no mutator fails and every validator accepts what they leave |
| `AdmissionAnswers.AdmittedInTurn` | internal/admission/chain.go:158-188 | each mutator works on what the one before leaves, the first that fails ends the request with its error; then the first validator that does not accept the last object decides, and a request all accept is admitted |
| `AdmissionAnswers.CheckedExactly` | internal/admission/plugins.go:87-156 | which requests each validator accepts, by the values found at the fields: required ones there and not null or empty, immutable ones the same as before, the name given and matching |
| `AdmissionAnswers.ImmutableRefusesExactly` | internal/admission/plugins.go:140-156 | exactly updates are refused that change the value of a listed field, absent and an empty object being null, and the first such field is named |
| `AdmissionAnswers.RefusalNames` | internal/admission/plugins.go:87-127 | a refusal names the missing fields, or what is wrong with the name |
| `AdmissionAnswers.MissingConcat` | internal/admission/plugins.go:88-93 | missing fields are named in the order of the list |
| `AdmissionRuns.RegistrationOrderIrrelevant` | internal/admission/chain.go:137-139 | chains of permuted compatible defaults give the same object and the same answer |
| `AdmissionRuns.ReinvocationHarmless` | internal/admission/chain.go:92-99 | running the default mutators on their own result changes nothing |
| `AdmissionRuns.StampKeepsPresenceExactly` | internal/admission/plugins.go:48-68 | stamping keeps everything present exactly when it does not overwrite a filled object with a string, nor on a deletion a scalar metadata with an empty object |
| `AdmissionRuns.StampFrame` | internal/admission/plugins.go:48-68 | helper: the last-modified time is stamped, the creation time on a creation without one; nothing else changes, nor an existing creation time |
| `AdmissionRuns.DefaultsSatisfyRequirements` | internal/admission/plugins.go:87-101 | a chain of default and timestamp mutators that defaults every required field never rejects a creation, update or deletion for a missing one; if a timestamp mutator is in it, provided no required field is below `metadata.lastModified` or, on a deletion, is `metadata` itself |
| `AdmissionRuns.MissingExactly` | internal/admission/plugins.go:88-93 | the fields reported missing are exactly the required ones not present |
| `AdmissionRuns.ImmutableFieldsKept` | internal/admission/plugins.go:140-156 | along any series of updates an immutable field stays equal to its value at creation |
| `RateLimiter.CustomApi.EnforceRateLimit` | internal/apibuilder/api_crud.go:1061-1115 | the answer and the buckets after one request |
| `RateLimiter.CustomApi.Sweep` | internal/apibuilder/api_crud.go:1077-1081 | exactly the buckets older than five minutes go |
| `RateLimiterRuns.CallersIndependent` | internal/apibuilder/api_crud.go:1083-1085 | every request is answered as if its caller were alone |
| `RateLimiterRuns.EvictionTransparent` | internal/apibuilder/api_crud.go:1077-1081 | on every trace the answers equal those of a limiter that never evicts |
| `RateLimiterRuns.RetryInRange` | internal/apibuilder/api_crud.go:1097-1100 | every denial names a delay of one to sixty seconds |
| `RateLimiterRuns.RetryHonoured` | internal/apibuilder/api_crud.go:1097-1104 | on every trace: a denied caller whose next request comes after exactly the delay it was told is not denied if and only if the rest of its window was whole seconds or less than one |
| `RateLimiterRuns.RetryTooEarly` | internal/apibuilder/api_crud.go:1097-1104 | limit one, calls at 0, 0.5 and 59.5 seconds: the second is told 59 seconds and the third is denied |
| `RateLimiterRuns.RemainingIsExact` | internal/apibuilder/api_crud.go:1108-1113 | the remaining count is how many more requests the same instant admits |
| `RateLimiterRuns.DeniedForAMinute` | internal/apibuilder/api_crud.go:1083-1107 | a caller that used up its limit at once is denied for exactly sixty seconds, and told the whole seconds left, at least one |
| `RateLimiterRuns.SlidingBound` | internal/apibuilder/api_crud.go:1084-1107 | any half-open span of k minutes, k at least one, admits at most (k + 1) * limit - 1 requests of a caller, whatever the others do |
| `RateLimiterRuns.SlidingBoundReached` | internal/apibuilder/api_crud.go:1084-1107 | the shared limiter reaches that bound for every caller, every limit and every k |
| `EndpointTable.APIBuilder.FindDuplicate` | internal/apibuilder/api_crud.go:767-814 | finds a duplicate exactly when there is one |
| `EndpointTable.APIBuilder.CreateAPI` | internal/apibuilder/api_crud.go:96-217 | the status code and the table after a creation |
| `EndpointTable.APIBuilder.UpdateAPI` | internal/apibuilder/api_crud.go:220-401 | the status code and the table after an update, refused ones included |
| `EndpointTable.APIBuilder.EditRecord` | internal/apibuilder/api_crud.go:230-276 | what is written into the stored record before the first bad field |
| `EndpointTable.APIBuilder.DeleteAPI` | internal/apibuilder/api_crud.go:403-417 | the row is gone, or not found |
| `EndpointRuns.CreateKeeps` | internal/apibuilder/api_crud.go:117-175 | every creation, granted or refused, keeps endpoints unique and records well formed |
| `EndpointRuns.UpdateKeepsExactly` | internal/apibuilder/api_crud.go:362-395 | an update keeps endpoints unique exactly when no other API has the endpoint it asks for; answering OK implies it, answering conflict excludes it |
| `EndpointRuns.RefusedUpdateBreaks` | internal/apibuilder/api_crud.go:263-375 | moving a REST API onto another one's endpoint is answered with a conflict and leaves two APIs with one signature |
| `EndpointRuns.EndpointsUniqueExactly` | internal/apibuilder/api_crud.go:362-417 | over every run of creations, deletions and updates, refused ones included: no two APIs of one type share a signature at any point exactly when no update asks for an endpoint that another API has |
| `EndpointRuns.EndpointsUnique` | internal/apibuilder/api_crud.go:362-417 | in terms of the answers alone: if every update answers OK or not found, endpoints stay unique |
| `EndpointRuns.StoredSignature` | internal/apibuilder/api_crud.go:734-765 | storing method and path trimmed and in upper case changes neither a REST nor a GraphQL signature |
| `EndpointRuns.CreatedSignature` | internal/apibuilder/api_crud.go:103-175 | a created API has the signature of what was asked for, GraphQL defaults for an absent method or path included |
| `EndpointAnswers.SignaturesEqualExactly` | internal/apibuilder/api_crud.go:749-765 | two signatures of a type are equal exactly if the methods in upper case and the normalised paths are, defaults of GraphQL included, or if a method with a blank in it runs into a path |
| `EndpointAnswers.SignatureIsMethodAndPath` | internal/apibuilder/api_crud.go:749-765 | for methods without a blank: equal exactly if methods and paths are |
| `EndpointAnswers.BlankMethodCollides` | internal/apibuilder/api_crud.go:753-765 | two GraphQL endpoints with different methods and one signature |
| `EndpointAnswers.CreateAnswers` | internal/apibuilder/api_crud.go:96-217 | which status a creation is answered with: a conflict exactly if an API of the type has the method and path, stored methods being without blanks, and otherwise granted if all checks pass |
| `EndpointAnswers.CreateStores` | internal/apibuilder/api_crud.go:176-215 | a granted creation adds the one row that was asked for, any other none |
| `EndpointAnswers.UpdateAnswers` | internal/apibuilder/api_crud.go:220-401 | which status an update is answered with, on every table: a conflict exactly if it moves the API onto an endpoint another one has |
| `EndpointAnswers.UpdateWrites` | internal/apibuilder/api_crud.go:230-276 | what an update leaves in the row: each given field, nothing after a bad type, only the type after a bad method |
| `EndpointAnswers.DeleteTakesOne` | internal/apibuilder/api_crud.go:403-417 | helper: the one row goes, all others stay |
| `EndpointAnswers.DeleteFrees` | internal/apibuilder/api_crud.go:403-417 | a REST endpoint nobody can create while its API is there can be created once that is deleted |
| `EndpointAnswers.EndpointsApart` | internal/apibuilder/api_crud.go:96-417 | over every run that creates APIs with methods without blanks and in which no update asks for an endpoint another API has, no two APIs of a type have the same method and path |
| `EndpointAnswers.PathDecorationIgnored` | internal/apibuilder/api_crud.go:734-747 | any white space and then any slashes around a path do not make another endpoint |
| `EndpointAnswers.RuntimePrefixIgnored` | internal/apibuilder/api_crud.go:734-747 | nor does the runtime prefix before it, which alone stands for the root |
| `AccessLog.Store.Record` | internal/accesslog/accesslog.go:80-105 | the history grows by the entry; ring and statistics stay in step with it |
| `AccessLog.Store.GetEntries` | internal/accesslog/accesslog.go:108-130 | the first entries, by the effective limit, of the ring-sized tail of the history, newest first, filtered by time and address |
| `AccessLog.ListsExactly` | internal/accesslog/accesslog.go:108-130 | listed are exactly the entries with a time and, if an address is asked for, of that address |
| `AccessLog.NewestFirstConcat` | internal/accesslog/accesslog.go:108-130 | of two stretches of the log the newer one is listed first |
| `AccessLog.LimitedTo` | internal/accesslog/accesslog.go:108-130 | helper: at most the limit, and five hundred for one out of range |
| `AccessLog.Store.GetUniqueIPs` | internal/accesslog/accesslog.go:133-145 | one row for each address ever seen, busiest first, with its count, first and last request; the counts add up to the number of entries recorded |
| `AccessLog.RingAdvances` | internal/accesslog/accesslog.go:85-89 | writing at the head and advancing it modulo the size keeps the latest entries in order |
| `AccessLog.AggregatesAdvance` | internal/accesslog/accesslog.go:92-104 | one more entry keeps every row a summary of the whole history |
| `AccessLog.CountsSumToHistory` | internal/accesslog/accesslog.go:92-104 | the counts of all addresses add up to the length of the history |
| `AccessLog.RetainedVersusCounted` | internal/accesslog/accesslog.go:84-105 | the ring retains at most as many entries of an address as were counted, and as many exactly when none that fell out was of that address |
| `Verdicts.DetermineVerdict` | internal/antivirus/engine.go:386-402 | clean without threats, malware if some confidence reaches 0.8, suspicious otherwise |
| `Verdicts.VerdictIsJoin` | internal/antivirus/engine.go:322-350 | the verdict of a completed scan is the join of its layers' verdicts |
| `Verdicts.MoreLayersNeverLower` | internal/antivirus/engine.go:322-350 | running more layers never lowers the verdict |
| `Verdicts.LayerOrderIrrelevant` | internal/antivirus/engine.go:322-350 | permuting the layers does not change the verdict |
| `Verdicts.AllFailingIsClean` | internal/antivirus/engine.go:335-342 | a scan all of whose layers fail answers clean |
| `Antivirus.Engine.RegisterLayer` | internal/antivirus/engine.go:122-139 | appends unless the name is taken; names stay distinct |
| `Antivirus.Engine.Scan` | internal/antivirus/engine.go:253-374 | the result and every counter after a skipped, cancelled and completed scan |
| `Antivirus.Engine.RecordThreat` | internal/antivirus/engine.go:466-477 | the log is the newest thousand of all threats recorded |
| `Antivirus.Engine.RecentThreats` | internal/antivirus/engine.go:482-492 | the log newest first |
| `ScanProtocol.QuiescentAccounts` | internal/antivirus/engine.go:322-373 | for any interleaving of scans, whenever none is under way: scanned = threats + clean, started = scanned + errors, each threat logged once and the log the newest thousand of them, each completed verdict the join of all layers |
| `ScanProtocol.UninterruptedScan` | internal/antivirus/engine.go:304-373 | from any state of the other scans, a scan whose steps are not interleaved has the result and the effect on counters and log that `Antivirus.Engine.Scan` is proved to have |
| `ScanProtocol.UninterruptedCancel` | internal/antivirus/engine.go:308-316 | so has a cancelled one |

## Left out

- `main.go`, `cmd/`, HTTP routing and JSON binding: no state of their own.
- Resource store, key-value store and notifier: a reliable map and a list of calls stand for them; store errors are not part of this model, except that creating an incident under a taken name fails.
- Get-then-update in the incident handlers and the reconciler is one step; two writers racing between the two calls are not part of this model.
- Rules are told apart by name alone, as incident names do; namespaces are not part of this model. Nor is deleting a rule and creating it anew under its old name within a run.
- Alert status fields that only report (phase, observed generation, last transition time) and incident text and labels.
- Nil incident store, evaluator and notifier; a nil channel store or notifier behaves like an empty channel directory, a nil evaluator like one that always answers no.
- Duration strings are parsed values; a span of more than 292 years, where time differences saturate, is not part of this model.
- Floating-point rounding: samples and confidences are reals, and the square root is any function that is one.
- Typed nil maps and slices inside JSON values, and default values shared by reference between requests: objects are trees, and the moving reference into one is modelled by the path that leads to it.
- Plugin timeouts and locks in the admission chain; registration happens before requests.
- Editing an API's rate limit, and the wall clock going back, in the middle of a request trace.
- How the caller key is built from token or address; the limiter is modelled per key.
- SQL policy checks, query execution and the response cache of custom APIs; the checks' outcomes are inputs of a creation or an update.
- The custom API reconciler, which inserts without a duplicate check.
- Letter case beyond ASCII in methods and types.
- IP blocklist and public-address filter of the access log: set membership only.
- Bytes and duration counters of concurrent scans, hashing and MIME detection.
