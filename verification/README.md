# Node readiness controller and its companions: a model with proofs

The repository holds a Kubernetes controller that taints nodes until their readiness conditions are met, a small agent
that reports such conditions, a table of what blocks which node, and an assistant that diagnoses events and runs tools.
This project models the parts of them that keep state over time and proves what they promise.

How it is built:

- `Common`, `NodeModel`, `RuleModel`: values shared by all, and the list operations on taints, conditions and statuses.
- `TaintStore`: the API server's versioned nodes and the fetch / check / patch protocol, with merge patches as in
  section 2 of RFC 7396, for any number of concurrent callers.
- `Evaluation`, `Passes`, `Reconciler`, `NodePass`: what one evaluation, one pass over the nodes, one rule reconcile and
  one node reconcile do to the whole state, as functions of the state and of what the API server answers; and the
  properties of these functions.
- `Controller`: the controller itself, objects with mutable fields, loops and bounded retries against an API server
  whose calls may fail and whose versions may move. Each method is proved to compute those functions.
- `Bootstrap`, `Deletion`: properties over whole runs, of completion accounting and of the staged deletion protocol.
- `Helpers`: the comparisons and the update-event filter.
- `ConditionReporter`, `ActiveBlockers`: the two ends of the pipeline, who sets conditions and what the table shows.
- `HashSuffix`, `Diagnosis`: workload keys, event selection, and the diagnosis manager as a state machine whose steps
  end at each await.
- `ToolDispatch`, `ResponseCache`: tool calls and conversation history, and the periodically cleaned cache.

State machines are deterministic functions of a state and a label, so that a statement about all label sequences is a
statement about all interleavings. Failures, clocks, listings and users' answers are parameters of the labels; in the
methods they are ghost results, so that a method's contract names exactly what the outside did. The API server counts
how often it disturbed the controller, by a failing call or a moved version, and a method that was not disturbed has no
failure to name: it must have done its work.

Where code and documentation differ the code is modelled:

- AppliedNodes is documented as the nodes whose taint was managed with success (api/v1alpha1/nodereadinessrule_types.go,
  line 137); the code lists every selected node. `Passes.AppliedIsManagedExactly` says when the two agree.
- A comment promises that diagnosed resources are never diagnosed again; a single-event request bypasses that check.
  `Diagnosis.SingleRequestRepeatsExactly` says when that leads to a second diagnosis.
- The schema allows at most 5000 entries in each list of the status (api/v1alpha1/nodereadinessrule_types.go, lines
  142-162); the code never checks a length. `Reconciler.OverfullRuleIsStuck` shows what follows.
- FailedNodes is never cleared by a successful rule pass, so statements about a pass exempt nodes the status lists as
  failed, whether by this pass or an earlier one.

Promises that do not hold of the code without a condition, the condition, and a failing case:

| promise | exact condition | failing case |
|---|---|---|
| an unchanged selector is the same selector | `Helpers.UnchangedIsTrueExactly` | `Helpers.SelectorChangedMissesARepeat` |
| equal label maps are the same map | `Helpers.StringMapEqualExact` | `Helpers.StringMapEqualMissesARename` |
| equal taint lists hold the same taints | `Helpers.SameTaintsExactly` | `Helpers.FilterMissesACollision` |
| the recorded taint status is the stored one | `Evaluation.RecordedStatusExact` | `Evaluation.StaleCopyIsMisrecorded` |
| every evaluation reaches the stored status | `NodePass.TurnIsStoredExactly` | `NodePass.FailedFirstEvaluationIsNotStored` |
| every pass reaches the stored status, and entries of deleted nodes go | `Reconciler.StatusIsStoredExactly` | `Reconciler.OverfullRuleIsStuck` |
| bootstrap is one-shot | `NodePass.BootstrapIsOneShot` | any turn `NodePass.FailedReadReopensBootstrap` excludes |
| a dry run changes no node | `Reconciler.DryReconcileChangesNoNode` | any node that condition excludes |
| a deleted rule's taint stays away | `Deletion.CleanOnceReleasedExactly` | `Deletion.LateEvaluationReaddsTheTaint` |
| one diagnose call at a time | `Diagnosis.SingleFlight` | `Diagnosis.TwoQuestionsBreakSingleFlight` |
| requests are settled in order | `Diagnosis.SettledFirstComeFirstServed` | `Diagnosis.SettlementOrderReverses` |
| one success for each workload | `Diagnosis.OneSuccessExactly` | `Diagnosis.DuplicatesAreDiagnosedTwice`, `Diagnosis.SecondRequestRepeats` |
| one tool entry for each call | `ToolDispatch.ToolCallAlignment` | `ToolDispatch.ToldReadGetsNoEntry` |

## Model

| member | source | states |
|---|---|---|
| `TaintStore.NoLostTaintUpdates` | internal/controller/node_controller.go:250-320 | for every interleaving of fetches and patches of any number of add, remove and annotate calls with outside writes and deletions, the stored taint lists are the initial ones with the committed edits applied one at a time in commit order |
| `TaintStore.StaleAttemptNeverCommits` | internal/controller/node_controller.go:265-267 | in every reachable state, a taint patch whose fetched copy is no longer the stored node changes nothing, and its call has to fetch again |
| `TaintStore.CommitIsAtomic` | internal/controller/node_controller.go:263-267 | a patch that commits does to the stored node what the add, remove or annotate would do alone, although a merge patch replaces the whole taint list |
| `TaintStore.NextAppliesItsEdit` | internal/controller/node_controller.go:250-320 | each step either leaves log and lists alone or appends one edit and applies exactly that edit |
| `TaintStore.MergeRoundTrip` | internal/controller/node_controller.go:263-265 | the merge patch from a base to an updated node, applied to the base, gives the updated node |
| `TaintStore.AnnotationPatchIsLocal` | internal/controller/node_controller.go:355-364 | the unlocked annotation patch, on whatever version it lands, sets its one key and touches no taint |
| `TaintStore.UnguardedPatchLosesAnAddition` | internal/controller/node_controller.go:245-249 | without the version guard the same taint patch would drop a concurrent addition, which is why the guard is there |
| `TaintStore.UndisturbedCallDoesItsWork` | internal/controller/node_controller.go:250-364 | progress: a call that nobody gets in the way of ends with the taint added as given at the end of the list, or every copy of it gone, or the annotation set to true, on its own node only; with nothing to do it changes nothing |
| `NodeModel.HasTaintBySpec` | internal/controller/node_controller.go:235-242 | finds a taint by key and effect, whatever its value |
| `NodeModel.WithoutTaint` | internal/controller/node_controller.go:301-306 | the rebuilding loop keeps exactly the taints of another key or effect, in order |
| `NodeModel.RemoveTaintCounts` | internal/controller/node_controller.go:301-306 | removal deletes every copy of the taint and keeps every copy of every other taint |
| `NodeModel.OtherTaintsKept` | internal/controller/node_controller.go:259-307 | adding and removing a taint both leave all other taints in place and in order; removing twice is removing once |
| `NodeModel.GetConditionStatus` | internal/controller/node_controller.go:225-232 | the status of the first condition of the type, Unknown when there is none |
| `NodeModel.StatusIsReported` | internal/controller/node_controller.go:225-232 | the status read for a type is the one the node reports: that of its first condition of the type, and the word Unknown when it has none |
| `NodeModel.OperatorsAgree` | internal/controller/nodereadinessrule_controller.go:501-512 | NotIn selects the opposite of In and DoesNotExist that of Exists, In with one value selects as the label itself and with more values as the choice between them, Exists selects any value |
| `NodeModel.OddRequirementsSelectNothing` | internal/controller/nodereadinessrule_controller.go:501-512 | any other operator, and values that do not suit the operator, select no node |
| `NodeModel.SelectorIsConjunction` | internal/controller/nodereadinessrule_controller.go:501-512 | a selector selects what all its labels and requirements select; the empty one selects every node |
| `Controller.RuleReadinessController.AddTaintBySpec` | internal/controller/node_controller.go:250-279 | with bounded conflict retries: on success the taint is stored, the start time is recorded if absent and the caller gets the refreshed node, or, when the taint was there already, nothing changes and the copy is not refreshed; on failure nothing changes |
| `Controller.RuleReadinessController.RemoveTaintBySpec` | internal/controller/node_controller.go:287-320 | the same for removal: every copy of the taint goes, or nothing changes |
| `Controller.RuleReadinessController.IsBootstrapCompleted` | internal/controller/node_controller.go:323-333 | true exactly when the read succeeds and the node carries the completion annotation; a failed read looks like not completed |
| `Controller.RuleReadinessController.MarkBootstrapCompleted` | internal/controller/node_controller.go:335-387 | writes the annotation if absent, then takes the start off the record, observes the duration if there was a start and counts the completion; if the annotation is present only the start goes; on failure nothing |
| `Controller.RuleReadinessController.CheckConditions` | internal/controller/nodereadinessrule_controller.go:357-385 | one result for each requirement in order, and satisfied exactly when all are met |
| `Controller.RuleReadinessController.EvaluateRuleForNode` | internal/controller/nodereadinessrule_controller.go:354-453 | one evaluation does to nodes, start times, counters, the rule status and the caller's copy of the node what the evaluation function says, in all five cases and on failure |
| `Controller.RuleReadinessController.EvaluateOrRecord` | internal/controller/node_controller.go:147-152 | a failed evaluation is recorded as the node's failure and nothing else changes |
| `Controller.RuleReadinessController.ProcessAllNodesForRule` | internal/controller/nodereadinessrule_controller.go:287-322 | the loop over a listing of the nodes computes the live pass and finishes the status; a failed listing changes nothing |
| `Controller.RuleReadinessController.ProcessDryRun` | internal/controller/nodereadinessrule_controller.go:587-666 | the counting loop computes the dry tally of a listing, cut to 32 bits, and changes no node |
| `Controller.RuleReadinessController.SimulateConditions` | internal/controller/nodereadinessrule_controller.go:603-621 | the dry loop finds conditions met exactly when the live one does, and counts something missing exactly when a required condition is Unknown |
| `Controller.RuleReadinessController.CleanupTaintsForRule` | internal/controller/nodereadinessrule_controller.go:669-704 | removes the rule's taint from the selected nodes of a listing, goes on after a failure, and reports one if there was any |
| `Controller.RuleReadinessController.CleanupNodesAfterSelectorChange` | internal/controller/nodereadinessrule_controller.go:707-759 | the same for nodes the old selector chose and the new one does not; an unparsable old selector fails before any change |
| `Controller.RuleReadinessController.UpdateRuleCache` | internal/controller/nodereadinessrule_controller.go:514-526 | the rule is cached under its name and no other entry changes |
| `Controller.RuleReadinessController.GetCachedRule` | internal/controller/nodereadinessrule_controller.go:529-538 | the cached rule, if any |
| `Controller.RuleReadinessController.RemoveRuleFromCache` | internal/controller/nodereadinessrule_controller.go:541-549 | the entry is gone and no other changes |
| `Controller.RuleReadinessController.GetApplicableRulesForNode` | internal/controller/nodereadinessrule_controller.go:485-498 | exactly the cached rules that select the node, each once, in any order |
| `Controller.RuleReadinessController.PersistNodeStatus` | internal/controller/node_controller.go:160-207 | the stored status becomes the merge of the stored and the cached one for this node, or nothing changes |
| `Controller.RuleReadinessController.ProcessNodeAgainstAllRules` | internal/controller/node_controller.go:107-222 | processes the applicable rules in some order of the cache map, each by its own turn; undisturbed no call of any turn fails |
| `Controller.RuleReadinessController.ProcessRule` | internal/controller/node_controller.go:114-204 | one turn: skipped or evaluated as `NodePass.TurnEvaluatesExactly` says, then cached and persisted; undisturbed none of its calls fails |
| `Controller.RuleReadinessController.ReconcileNode` | internal/controller/node_controller.go:90-104 | one node reconcile is one pass over the stored node, or nothing when it cannot be read; undisturbed a stored node is read |
| `Controller.RuleReadinessController.CleanupDeletedNodes` | internal/controller/nodereadinessrule_controller.go:231-284 | drops the stored evaluations of nodes that are gone, unless the rule's own list shows none |
| `Controller.RuleReadinessController.ReconcileDelete` | internal/controller/nodereadinessrule_controller.go:204-228 | cache the marked rule, sweep, drop it from the cache, remove the finalizer, and stop at the first stage that fails |
| `Controller.RuleReadinessController.ReconcileRule` | internal/controller/nodereadinessrule_controller.go:98-198 | one rule reconcile, whatever the API server answers, is the reconcile function of the state and those answers; undisturbed no call that it makes fails, so that it ends as `Reconciler.ReconcileEndsExactly` says |
| `Controller.RuleReadinessController.ReconcileLive` | internal/controller/nodereadinessrule_controller.go:148-198 | the part of it for a rule that is neither new nor being deleted |
| `Evaluation.RecordedStatusExact` | internal/controller/nodereadinessrule_controller.go:441-450 | the recorded taint status equals what the API server holds if and only if the evaluated copy agreed with the stored node about the taint |
| `Evaluation.StaleCopyIsMisrecorded` | internal/controller/nodereadinessrule_controller.go:441-447 | a world in which they differ: on a copy from before somebody removed the taint, a rule whose condition is met is recorded with the taint present while the API server holds none |
| `Evaluation.FreshEvaluation` | internal/controller/nodereadinessrule_controller.go:354-453 | on a fresh copy a successful evaluation gives the node exactly its desired taints, and in the store changes no other node, label or condition |
| `Evaluation.FreshEvaluationIsExact` | internal/controller/nodereadinessrule_controller.go:387-450 | the taint is then stored, and recorded, exactly when a required condition is unmet; all other taints keep content and order |
| `Evaluation.CompletedKeyInjective` | internal/controller/node_controller.go:338-338 | completion annotations of different rules have different keys |
| `Evaluation.TaintTellsUnmetConditions` | internal/controller/nodereadinessrule_controller.go:354-453 | in the terms of the resources: after an evaluation on a fresh copy the stored node has a taint of the rule's key and effect, and the record says Present and else Absent, if and only if the node reports another status than one that is required; and the record lists for each requirement the status the node reports |
| `Evaluation.TaintsAfterExactly` | internal/controller/nodereadinessrule_controller.go:398-434 | the whole list of taints then: as it was, or with the taint as the rule specifies it, value included, at the end, or without any taint of its key and effect |
| `Evaluation.MissingConditionBlocks` | internal/controller/node_controller.go:225-232 | a required condition that the node does not have is unmet and keeps the node tainted, unless the word Unknown is required |
| `Evaluation.AddedTaintHasAStart` | internal/controller/node_controller.go:269-269 | an evaluation that adds the taint leaves a start on record, the one that was there or the present time, and touches no other |
| `Evaluation.FirstSightHasAStart` | internal/controller/nodereadinessrule_controller.go:422-433 | so does the first evaluation of a bootstrap-only rule on a node that joined with the taint, and it does nothing else |
| `Evaluation.CompletionObservesTheDuration` | internal/controller/node_controller.go:335-387 | from the taint to the completion: when a later evaluation finds the conditions met and the start is still there, the node is marked, the completion counted, exactly one duration observed, the time between the two, and the start taken off |
| `Evaluation.ContinuousRemovalLeavesNoMark` | internal/controller/nodereadinessrule_controller.go:398-411 | a continuous rule removes its taint without mark, count or duration, and the start goes |
| `Evaluation.RefusedChangeIsRecorded` | internal/controller/node_controller.go:147-152 | a refused change changes nothing but the rule's failures: one for the node, with the reason EvaluationError and what could not be done, and those of other nodes as they were |
| `Passes.LivePassNode` | internal/controller/nodereadinessrule_controller.go:287-307 | the pass changes a listed node once, as its own evaluation would, and no other |
| `Passes.LivePassConverges` | internal/controller/nodereadinessrule_controller.go:287-322 | after a pass over a listing of the current nodes every selected node not recorded as failed has the taint exactly when a condition is unmet and is so recorded, keeps its other taints in order; nodes not selected are untouched |
| `Passes.LivePassKeepsStatusKeyed` | internal/controller/nodereadinessrule_controller.go:287-322 | the pass keeps evaluations and failures unique by node name |
| `Passes.AppliedIsApplicable` | internal/controller/nodereadinessrule_controller.go:296-316 | AppliedNodes lists every selected node in listing order, failed ones included |
| `Passes.AppliedIsManagedExactly` | internal/controller/nodereadinessrule_controller.go:296-316 | AppliedNodes lists the nodes whose taint was managed with success, as documented, if and only if no selected node's change fails |
| `Passes.FinishedRuleExactly` | internal/controller/nodereadinessrule_controller.go:309-322 | a finished pass writes the generation and the applied nodes, and clears the results of an earlier dry run unless it is one; nothing but the status changes |
| `Passes.FinishedStatusIsAcceptedExactly` | api/v1alpha1/nodereadinessrule_types.go:137-162 | of keys, names and sizes, the schema accepts the status of a finished pass if and only if the selected nodes, the nodes with an entry from before or now (deleted nodes included), and those with a failure from before or now are each at most 5000 |
| `Passes.SecondPassDoesNothing` | internal/controller/nodereadinessrule_controller.go:287-322 | after a pass without failures a second pass over any new listing does no add and no remove, and a dry run reports zero of both |
| `Passes.DryRunPredictsLive` | internal/controller/nodereadinessrule_controller.go:587-666 | on one listing and without failing patches the dry counts equal the nodes the live pass taints and untaints, the operations it counts, and the number of applied nodes |
| `Passes.RiskyExactly` | internal/controller/nodereadinessrule_controller.go:603-640 | the risky nodes counted are the selected ones that report Unknown for a required condition or do not report it |
| `Passes.CleanupIsComplete` | internal/controller/nodereadinessrule_controller.go:669-704 | a cleanup that reports no failure has removed the taint from every wanted node of the listing, and nothing else in the store changed |
| `Passes.CleanupChangesNothingExactly` | internal/controller/nodereadinessrule_controller.go:707-759 | a cleanup leaves all nodes as they are if and only if no wanted listed node has the taint, or its removal fails |
| `Reconciler.SelectorChangeEndToEnd` | internal/controller/nodereadinessrule_controller.go:148-179 | after a successful live reconcile whose comparison with the cached selector found a change, or could be trusted not to find one: nodes only the old selector chose lost the taint and nothing else, nodes the new one chooses have it exactly when a condition is unmet, every other node is untouched; as the selector of one rule is immutable, the cached one is that of a rule deleted and created again under the name |
| `Reconciler.LiveReconcileEndToEnd` | internal/controller/nodereadinessrule_controller.go:148-198 | the same of every successful live reconcile, with or without a selector change, whatever the comparison says |
| `Reconciler.OldNodeIsCleanedExactly` | internal/controller/nodereadinessrule_controller.go:148-157 | a tainted node only the cached selector chose, that of an earlier rule of the name, loses the taint if and only if the comparison finds a change |
| `Reconciler.StatusIsStoredExactly` | internal/controller/nodereadinessrule_controller.go:181-195 | the status of a live pass is stored if and only if it fits the limits and the call succeeds, and a successful reconcile then leaves entries of existing nodes only; otherwise the reconcile stops before the cleanup of deleted nodes and every stored entry stays |
| `Reconciler.OverfullRuleIsStuck` | internal/controller/nodereadinessrule_controller.go:181-195 | the failing case, over any number of reconciles: once the stored entries, those of deleted nodes included, and the selected nodes are more than 5000, every reconcile fails and no entry ever goes |
| `Reconciler.DryReconcileChangesNoNode` | internal/controller/nodereadinessrule_controller.go:148-168 | a dry-run reconcile leaves all nodes as they are, whatever fails, if and only if no node left behind by a selector change has its taint removed: that cleanup is not part of the dry run |
| `Reconciler.PublishedDryRunPredictsLive` | internal/controller/nodereadinessrule_controller.go:653-661 | the dry-run result that reaches the stored status is what a live reconcile on the same nodes does |
| `Reconciler.DeleteEndToEnd` | internal/controller/nodereadinessrule_controller.go:204-228 | a reconcile that removes the finalizer leaves the taint on no selected node, changes no other node, and leaves the rule out of the cache |
| `Reconciler.ReconcileKeepsCacheGuarded` | internal/controller/nodereadinessrule_controller.go:126-160 | every reconcile keeps every cached rule either finalizer-guarded or marked deleted |
| `Reconciler.GoneRuleLeavesTheCache` | internal/controller/nodereadinessrule_controller.go:98-125 | a rule that is not stored any more leaves the cache and nothing else changes |
| `Reconciler.NewRuleIsGuarded` | internal/controller/nodereadinessrule_controller.go:126-137 | the first reconcile of a new rule gives the stored rule the finalizer and does nothing else, or fails and does nothing |
| `Reconciler.ProcessedRulesAreGuarded` | internal/controller/nodereadinessrule_controller.go:126-198 | whatever is answered, a reconcile that ends without error and not with the rule gone or released leaves the stored rule with the finalizer |
| `Reconciler.NewRuleTakesEffect` | internal/controller/nodereadinessrule_controller.go:126-198 | two reconciles without failures bring a new rule into effect: the second caches the guarded rule, and every selected node has the taint exactly when it reports another status than one that is required; other nodes are as before |
| `Reconciler.ReconcileEndsExactly` | internal/controller/nodereadinessrule_controller.go:98-198 | when no call fails: a rule that is gone is forgotten, one marked deleted released, a new one guarded, any other processed to the end, unless the cached selector of an earlier rule does not parse or the status does not fit |
| `Reconciler.UnfinishedDeletionStaysGuarded` | internal/controller/nodereadinessrule_controller.go:204-228 | a deletion that stops at a failing stage leaves the stored rule guarded, and cached as deleted if the sweep failed |
| `Reconciler.StoredStatusExactly` | internal/controller/nodereadinessrule_controller.go:181-283 | the stored rule after a successful reconcile differs in its status only; generation, applied nodes, failures and dry-run results are those of the pass, and of its entries exactly those of existing nodes stay, in order |
| `Reconciler.StoredEntriesExactly` | internal/controller/nodereadinessrule_controller.go:231-283 | node by node: a selected node whose change was not refused has the entry of its evaluation, any other existing node the entry it had, and no other node has one |
| `NodePass.OrderIndependent` | internal/controller/node_controller.go:107-222 | when no two applicable rules share a taint, every order of the cached rules leads to the same taints up to order, the same annotations and the same cached and stored statuses, whatever calls fail |
| `NodePass.NodeReconcileIsConfluent` | internal/controller/node_controller.go:107-222 | the same from the cache alone, and each rule that acts ends with its taint present exactly when one of its conditions is unmet |
| `NodePass.PassRecordsEachRule` | internal/controller/node_controller.go:154-207 | each rule's cached and stored status, annotation and taint after the pass are those of its own turn |
| `NodePass.PassCounts` | internal/controller/node_controller.go:114-221 | after the pass each taint occurs as often as its one managing rule makes it occur |
| `NodePass.TurnEvaluatesExactly` | internal/controller/node_controller.go:107-207 | a turn leaves everything as it is if and only if the rule is marked deleted, or a dry run in either mode, or bootstrap-only with its completion stored and read; in every other case it is the evaluation, followed by caching and persisting |
| `NodePass.InactiveRulesAreLeftAlone` | internal/controller/node_controller.go:107-222 | a node reconcile in any order and with any failures changes nothing of a cached rule that does not select the node, is marked deleted or is a dry run: neither its cached nor its stored status, its mark, nor its taint |
| `NodePass.ActiveRulesAreSettled` | internal/controller/node_controller.go:107-222 | and it settles every other cached rule, unless its bootstrap is completed or its change refused: the stored node has the taint exactly when it reports another status than one that is required, and the cached rule has the entry |
| `NodePass.BootstrapIsOneShot` | internal/controller/node_controller.go:107-151 | over any run of node reconciles, with any failures, a stored completion stays; and the rule's taint on the node is at every moment as at the start if and only if no reconcile reopened the rule, as `NodePass.FailedReadReopensBootstrap` describes |
| `NodePass.BootstrapIsOneShotWhenReadsSucceed` | internal/controller/node_controller.go:107-151 | in particular when all reads succeed |
| `NodePass.TurnIsStoredExactly` | internal/controller/node_controller.go:147-207 | a rule's turn reaches the stored status if and only if the call goes through, the node has an entry, from before or from this evaluation, and the stored lists have room for what is added |
| `NodePass.FailedFirstEvaluationIsNotStored` | internal/controller/node_controller.go:147-207 | a failed first evaluation leaves neither its entry nor its failure in the store, only the failure in the cached rule |
| `NodePass.CompletionsAreNeverRemoved` | internal/controller/node_controller.go:335-376 | over any run, failing reads included, an annotation once stored stays |
| `NodePass.FailedReadReopensBootstrap` | internal/controller/node_controller.go:128-147 | a turn of a completed bootstrap-only rule keeps the presence of its taint if and only if the read succeeds, or the rule is deleted or dry-run, or no change is needed, or the change fails |
| `Bootstrap.StartKeyInjective` | internal/controller/helper.go:137-144 | for rule names without NUL the start-time key determines rule and node |
| `Bootstrap.StartKeyCollides` | internal/controller/helper.go:137-144 | in general two pairs share a key if and only if the longer rule name continues the shorter with the separator and the other node name begins with that continuation |
| `Bootstrap.EvaluationCompletesOnce` | internal/controller/node_controller.go:335-387 | an evaluation sets the completion of its own rule and node only, and then counts once and observes at most one duration; otherwise it completes, counts and observes nothing |
| `Bootstrap.TransitionsAreCounted` | internal/controller/node_controller.go:378-384 | over any run, whatever happens outside, the counter of a rule grows by the number of steps that set its annotation where it was absent, and there are at most as many observations |
| `Bootstrap.CompletionsAreCounted` | internal/controller/node_controller.go:378-384 | when nobody else deletes nodes or edits annotations, that is exactly the number of nodes whose annotation went from absent to present |
| `Bootstrap.CompletedNodeIsNotCountedAgain` | internal/controller/nodereadinessrule_controller.go:399-434 | after any run, an evaluation on a node that had completed, re-tainting or untainting it, adds neither a count nor an observation |
| `Bootstrap.StartsMoveOnlyByAbsence` | internal/controller/node_controller.go:269-269 | a start time is put on record only when none was there, at the time of an evaluation of its own rule and node, and is never moved |
| `Bootstrap.CompletionClearsTheStart` | internal/controller/node_controller.go:368-372 | a completion takes the start off the record |
| `Bootstrap.DurationIsMeasuredFromFirstStart` | internal/controller/node_controller.go:368-372 | the duration observed for a completion runs from the evaluation that first recorded the start and whose start stayed on record since; without a start nothing is observed |
| `Deletion.DeletionIsSafe` | internal/controller/nodereadinessrule_controller.go:204-228 | over all runs of rule reconciler, node reconciler, users, other writers and crashes in which no evaluation comes too late, a sufficient condition: once the finalizer was removed, no selected node carries the taint, then or ever after |
| `Deletion.CleanOnceReleasedExactly` | internal/controller/nodereadinessrule_controller.go:204-228 | over all runs without any condition: once the finalizer was removed, the selected nodes are clean if and only if the taint of every late evaluation, before or after, has been taken off again, by another evaluation, a repeated sweep or the end of the node |
| `Deletion.NoneLateOwesNothing` | internal/controller/node_controller.go:111-147 | as when no evaluation comes too late |
| `Deletion.CoherentIsNeverLate` | internal/controller/node_controller.go:111-126 | no evaluation comes too late when lookup and evaluation of a rule are one step |
| `Deletion.InvIsKeptExactly` | internal/controller/node_controller.go:111-147 | of all steps exactly the late evaluations break the protocol: those that add the taint to a selected node after the release, while the last stages run, or behind the sweep |
| `Deletion.CleanAfterReleaseExactly` | internal/controller/node_controller.go:111-147 | after the release an evaluation keeps the nodes clean if and only if nothing is held, or the held rule is deleted or dry-run, or a copy or node is not selected, or no taint is to be added, or the patch fails |
| `Deletion.CleanEverAfterExactly` | internal/controller/node_controller.go:111-147 | and over whole runs after the release the nodes are clean at every moment if and only if no evaluation adds the taint |
| `Deletion.CachedRuleIsGuarded` | internal/controller/nodereadinessrule_controller.go:126-160 | throughout such a run a cached rule carries the finalizer or is marked deleted |
| `Deletion.FinalizerHoldsTheRule` | internal/controller/nodereadinessrule_controller.go:220-227 | the finalizer disappears only in the controller's own last stage, at a moment when the nodes are clean |
| `Deletion.EvaluationTouches` | internal/controller/nodereadinessrule_controller.go:398-434 | the node change used in the deletion protocol is what one evaluation does to labels, conditions and taints |
| `Deletion.CleanNodeSweeps` | internal/controller/nodereadinessrule_controller.go:684-696 | the sweep of one node is the cleanup of that node |
| `Deletion.UninterruptedStepsAreAReconcile` | internal/controller/nodereadinessrule_controller.go:98-228 | the protocol is that of the reconciler: its steps in one reconcile that nothing interrupts end on what the protocol sees of the world the reconcile leaves, for a rule that is gone, new, marked deleted, a dry run or live, whatever calls fail |
| `Deletion.LateEvaluationReaddsTheTaint` | internal/controller/node_controller.go:111-126 | a complete run, from before the rule is created, in which a rule pointer taken before the deletion mark re-adds the taint after the release and no rule is left to remove it |
| `RuleModel.UpdateNodeEvaluationStatus` | internal/controller/nodereadinessrule_controller.go:456-482 | overwrites the node's entry or appends one |
| `RuleModel.WithEvaluationIsKeyed` | internal/controller/nodereadinessrule_controller.go:456-482 | that keeps the list unique by node name, sets this node's entry and no other |
| `RuleModel.RecordNodeFailure` | internal/controller/node_controller.go:390-411 | the node's old failures go and the new one comes last |
| `RuleModel.RecordFailureTouchesOneNode` | internal/controller/node_controller.go:390-411 | one failure for this node, every other node's failures as they were |
| `RuleModel.RecordFailureIsKeyed` | internal/controller/node_controller.go:390-411 | failures stay unique by node name |
| `RuleModel.MergeStatusForNode` | internal/controller/node_controller.go:168-204 | the per-node merge of the stored status with the cached one |
| `RuleModel.MergeTouchesOneEvaluation` | internal/controller/node_controller.go:168-190 | the merge changes only this node's evaluation, to the cached one |
| `RuleModel.MergeTouchesOneNodesFailures` | internal/controller/node_controller.go:192-204 | the merge replaces this node's failures by the cached ones, in order, and no other node's |
| `RuleModel.MergeKeepsTheRest` | internal/controller/node_controller.go:168-204 | the merge keeps the stored generation, applied nodes and dry-run results, and every other node's entry in its place |
| `RuleModel.MergeKeepsFailuresKeyed` | internal/controller/node_controller.go:192-204 | failures stay unique by node name |
| `RuleModel.MergeKeepsEvaluationsKeyed` | internal/controller/node_controller.go:168-190 | on stored evaluations, which all have names, the merge keeps the list unique by node name |
| `RuleModel.MergeIsAcceptedExactly` | internal/controller/node_controller.go:160-207 | of keys, names and sizes, the schema accepts the merged status if and only if the cached rule has an entry for the node and the stored lists, of at most 5000 entries each, have room for it and its failure; without the entry a zero-valued one is refused and nothing is written |
| `RuleModel.KeepExisting` | internal/controller/nodereadinessrule_controller.go:244-250 | the entries of existing nodes, in order |
| `RuleModel.KeepExistingIsKeyed` | internal/controller/nodereadinessrule_controller.go:244-255 | it keeps exactly the entries of existing nodes, in order and unique; equal length means nothing was dropped |
| `Helpers.LabelsEqual` | internal/controller/helper.go:122-134 | the loop decides equality with an absent key read as the empty value |
| `Helpers.StringMapEqualExact` | internal/controller/helper.go:62-74 | when the comparison says equal, the maps are equal if and only if every empty value of the first has its key in the second |
| `Helpers.StringMapEqualMissesARename` | internal/controller/helper.go:122-134 | an empty label exchanged for another label is missed |
| `Helpers.ConditionsEqual` | internal/controller/helper.go:77-95 | equal lengths, and each new condition has the status last seen for its type |
| `Helpers.SameConditionsSameStatus` | internal/controller/helper.go:77-95 | with unique types in the new list, equal condition lists give every type the same status |
| `Helpers.TaintsEqual` | internal/controller/helper.go:98-119 | equal lengths, and each new taint has the value last seen under its run-together key |
| `Helpers.SameTaintsExactly` | internal/controller/helper.go:98-119 | with unique identities in the new list, equal taint lists hold the same taints if and only if no new taint that the old list lacks is filed under the run-together key of an old one |
| `Helpers.SameTaintsSameValues` | internal/controller/helper.go:98-119 | values count: with unique keys in the new list and none masked, equal lists hold the same taints with the same values |
| `Helpers.MaskedExactly` | internal/controller/helper.go:98-119 | with the three effects that happens if and only if a new taint missing from the old list makes such a pair with an old one: one key is the other with Prefer appended, under PreferNoSchedule and NoSchedule |
| `Helpers.CollisionExact` | internal/controller/helper.go:106-106 | of different taints with the three effects, two share the run-together key if and only if one key is the other with Prefer appended and the effects are PreferNoSchedule and NoSchedule |
| `Helpers.UpdateFilter` | internal/controller/node_controller.go:60-80 | an update event is reconciled exactly when one of the three comparisons reports a change |
| `Helpers.FilterLosesNothing` | internal/controller/node_controller.go:60-80 | if the filter skips an event, applicability, every condition status, every taint and every rule's need for action are the same for the old and the new node |
| `Helpers.HeartbeatIsSkipped` | internal/controller/node_controller.go:60-80 | and the filter does skip: an update that changes no label, no taint, and of the conditions no type and status |
| `Helpers.FilterMissesACollision` | internal/controller/node_controller.go:65-69 | without the no-collision hypothesis a skipped event can hide a removed taint |
| `Helpers.NodeSelectorChanged` | internal/controller/helper.go:28-59 | changed labels, a different number of expressions, or an expression not among the previous ones |
| `Helpers.SameSelectorIsUnchanged` | internal/controller/helper.go:28-59 | a reported change is real: with the same labels, as many requirements and no other ones there is none |
| `Helpers.UnchangedExact` | internal/controller/helper.go:39-58 | when no change is reported, the requirements are filed under the same texts if and only if there are as many distinct ones, as there are whenever the current selector repeats none |
| `Helpers.ExprKeyExact` | internal/controller/helper.go:42-49 | requirements without separators in their parts share a text if and only if they are the same but for the one empty value, which prints as none |
| `Helpers.ExprKeyInjective` | internal/controller/helper.go:42-49 | so the text tells a requirement apart when its values suit its operator, as in every requirement that parses, In and NotIn with the empty value included |
| `Helpers.UnchangedIsTrueExactly` | internal/controller/helper.go:28-59 | for such requirements the verdict unchanged is true, labels and requirements being the same, if and only if the current selector has no fewer distinct requirements and no empty label value the previous one lacks |
| `Helpers.UnchangedSelectsTheSame` | internal/controller/helper.go:28-59 | then both selectors select the same nodes, whatever their labels |
| `Helpers.NoRepeatIsEnough` | internal/controller/helper.go:52-58 | a current selector that repeats no requirement has enough distinct ones |
| `Helpers.SelectorChangedMissesARepeat` | internal/controller/helper.go:52-58 | the failing case: only one direction is compared, so a repeated expression hides a removed one that mattered |
| `ConditionReporter.WithReport` | cmd/readiness-condition-reporter/main.go:216-253 | the two scans keep the transition time of an equal status, then overwrite the first condition of the type or append |
| `ConditionReporter.UpdateNodeCondition` | cmd/readiness-condition-reporter/main.go:201-258 | with bounded conflict retries: on success the status is the report of a status in which nobody had touched this condition; on failure this condition is as before; undisturbed it succeeds |
| `ConditionReporter.ReportTouchesOneType` | cmd/readiness-condition-reporter/main.go:241-253 | a check changes the first condition of its type only; all others keep content and order |
| `ConditionReporter.TransitionTimeTellsHistory` | cmd/readiness-condition-reporter/main.go:216-239 | after any sequence of checks at non-zero times there is one condition of the type, with the status, reason, message and heartbeat of the last check and the time of the first check of the last run of equal results as transition time |
| `ConditionReporter.OtherConditionsAreKept` | cmd/readiness-condition-reporter/main.go:241-253 | through any number of checks all other conditions keep content and order |
| `ConditionReporter.ControllerReadsLastCheck` | cmd/readiness-condition-reporter/main.go:209-214 | what the controller reads for the type is True if the last check was healthy and False otherwise |
| `ConditionReporter.RequirementTellsHealth` | cmd/readiness-condition-reporter/main.go:209-214 | a requirement of True is met exactly when the last check was healthy, one of False exactly when it was not |
| `ConditionReporter.HealthDecidesTheTaint` | cmd/readiness-condition-reporter/main.go:201-258 | from the check to the taint: a rule that requires just this condition leaves the node tainted exactly when the last check was unhealthy |
| `ActiveBlockers.BuildActiveBlockerRows` | plugins/node-readiness-controller/src/activeBlockersRows.ts:50-94 | one group of rows for each evaluation with the taint present, of rules that are not dry-run, in order of rules and evaluations |
| `ActiveBlockers.TableIsRuleByRule` | plugins/node-readiness-controller/src/activeBlockersRows.ts:53-92 | the table of several rules is their tables one after the other |
| `ActiveBlockers.TableOfOneRule` | plugins/node-readiness-controller/src/activeBlockersRows.ts:54-61 | a dry-run rule has none |
| `ActiveBlockers.RowIdsAreDistinct` | plugins/node-readiness-controller/src/activeBlockersRows.ts:70-90 | row identifiers are pairwise distinct over the whole table for distinct rule names, one evaluation for each node and names without a colon |
| `ActiveBlockers.ColonBreaksIds` | plugins/node-readiness-controller/src/activeBlockersRows.ts:73-73 | without the condition on names it fails: two rules whose names run together over the separator give two rows of one table the same identifier |
| `ActiveBlockers.BlockersAreFaithful` | plugins/node-readiness-controller/src/activeBlockersRows.ts:50-94 | after a live pass from an empty status the table has exactly one row for each evaluated node and unmet requirement, in order, and no other |
| `ActiveBlockers.ReconciledRuleShowsItsBlockers` | plugins/node-readiness-controller/src/activeBlockersRows.ts:50-94 | the same for the stored rule after a whole successful reconcile, from a status that holds no entries but of deleted nodes |
| `ActiveBlockers.ReconciledNodeShowsItsBlockers` | plugins/node-readiness-controller/src/activeBlockersRows.ts:50-94 | and from any stored status, node by node: one row for each unmet requirement of a selected node whose change was not refused, of any other existing node the rows it had, and none of a node that is gone |
| `ActiveBlockers.TableSaysWhatIsReported` | plugins/node-readiness-controller/src/activeBlockersRows.ts:35-37 | word for word: a row for a node reads type, colon, reported status and in parentheses the required one, exactly for the requirements that the node does not meet |
| `ActiveBlockers.BlockedNodesAreTheTaintedOnes` | plugins/node-readiness-controller/src/activeBlockersRows.ts:50-94 | after a pass without failures a selected node has a row exactly when the API server holds the taint on it |
| `ActiveBlockers.NoMismatchMeansStaleCopy` | plugins/node-readiness-controller/src/activeBlockersRows.ts:83-85 | the row without a failing condition appears for an evaluation if and only if its conditions were met on a copy that still had the taint while the API server did not |
| `HashSuffix.Match` | plugins/ai-assistant/src/utils/ProactiveDiagnosisManager.ts:490-490 | the regular expression as a split: the place is found exactly when there is one |
| `HashSuffix.SplitIsUnique` | plugins/ai-assistant/src/utils/ProactiveDiagnosisManager.ts:490-490 | a name splits in at most one place |
| `HashSuffix.StripHashSuffixes` | plugins/ai-assistant/src/utils/ProactiveDiagnosisManager.ts:485-498 | the loop terminates with a prefix of the name that has no generated suffix left |
| `HashSuffix.StripEnds` | plugins/ai-assistant/src/utils/ProactiveDiagnosisManager.ts:485-498 | what remains has no suffix left, is a prefix of the name, and is not empty unless the name is |
| `HashSuffix.StripIsIdempotent` | plugins/ai-assistant/src/utils/ProactiveDiagnosisManager.ts:485-498 | stripping twice is stripping once |
| `HashSuffix.HierarchyHasOneKey` | plugins/ai-assistant/src/utils/ProactiveDiagnosisManager.ts:472-498 | base, base-h1 and base-h1-h2 strip to one name for a non-empty one-line base and hash-like h1 and h2 |
| `HashSuffix.AlphabeticPartIsKept` | plugins/ai-assistant/src/utils/ProactiveDiagnosisManager.ts:479-498 | a last part without digits is kept, whatever its length |
| `HashSuffix.LastPartIsStrippedExactly` | plugins/ai-assistant/src/utils/ProactiveDiagnosisManager.ts:485-498 | letter by letter: a last part is stripped if and only if it has four to ten characters, all lower-case letters or digits and one a digit, behind a dash and something on one line |
| `HashSuffix.WorkloadKeysExactly` | plugins/ai-assistant/src/utils/ProactiveDiagnosisManager.ts:102-105 | for namespaces without a slash two resources share a key if and only if their names strip alike and their namespaces agree, an absent one counting as an underscore |
| `HashSuffix.ExtractTopEvents` | plugins/ai-assistant/src/utils/ProactiveDiagnosisManager.ts:505-548 | at most limit digests about pairwise distinct workloads, those that `TopKeepsTheNewest` characterises |
| `HashSuffix.ProblemsExactly` | plugins/ai-assistant/src/utils/ProactiveDiagnosisManager.ts:506-516 | problems are the events of type Warning or Error and their time is when they were last seen, each read from the wrapped data first |
| `HashSuffix.DigestsAreOfProblems` | plugins/ai-assistant/src/utils/ProactiveDiagnosisManager.ts:531-547 | every digest is that of a Warning or Error event of the list, field by field, with what stands for absent fields |
| `HashSuffix.TopKeepsTheNewest` | plugins/ai-assistant/src/utils/ProactiveDiagnosisManager.ts:500-548 | at most limit events about distinct workloads, newest first; every problem event is represented by one of its workload at least as new, or the list is full of events at least as new |
| `HashSuffix.EqualTimesKeepTheirOrder` | plugins/ai-assistant/src/utils/ProactiveDiagnosisManager.ts:511-516 | events of one time stay in the order they were fetched in |
| `Diagnosis.ProactiveDiagnosisManager.AlreadyDiagnosed` | plugins/ai-assistant/src/utils/ProactiveDiagnosisManager.ts:174-187 | true exactly when the workload is in the persistent set or some cached entry of it has not failed |
| `Diagnosis.ProactiveDiagnosisManager.DiagnoseEvents` | plugins/ai-assistant/src/utils/ProactiveDiagnosisManager.ts:214-280 | a cycle up to its first await: nothing while running or without a function; without new events it ends at once, its listeners ask and the queue is drained; else the new events are marked pending and the first is called |
| `Diagnosis.ProactiveDiagnosisManager.DiagnoseSingleEvent` | plugins/ai-assistant/src/utils/ProactiveDiagnosisManager.ts:323-342 | a cached answer (a pending one included) is returned, no function is an error, a running cycle queues the request, else the call is made |
| `Diagnosis.ProactiveDiagnosisManager.ExecuteSingleDiagnosis` | plugins/ai-assistant/src/utils/ProactiveDiagnosisManager.ts:348-381 | a single diagnosis up to its await; without a function it fails at once and the queue is drained |
| `Diagnosis.ProactiveDiagnosisManager.DrainSingleEventQueue` | plugins/ai-assistant/src/utils/ProactiveDiagnosisManager.ts:420-424 | the longest waiting request is executed, and all of them fail in turn when the function is missing |
| `Diagnosis.ProactiveDiagnosisManager.Resume` | plugins/ai-assistant/src/utils/ProactiveDiagnosisManager.ts:280-316 | the code after an await: record success or failure, go on with the cycle, or end it, let its listeners ask any number of questions and drain the queue |
| `Diagnosis.ProactiveDiagnosisManager.EndOfCycle` | plugins/ai-assistant/src/utils/ProactiveDiagnosisManager.ts:310-316 | the end of a cycle: the questions of its listeners one after the other, then the drain |
| `Diagnosis.ProactiveDiagnosisManager.SetDiagnoseFn` | plugins/ai-assistant/src/utils/ProactiveDiagnosisManager.ts:111-113 | the function is set or taken away; nothing else changes |
| `Diagnosis.ProactiveDiagnosisManager.ClearCache` | plugins/ai-assistant/src/utils/ProactiveDiagnosisManager.ts:465-469 | cache and diagnosed workloads are emptied; a call in flight and the queue stay |
| `Diagnosis.SingleFlight` | plugins/ai-assistant/src/utils/ProactiveDiagnosisManager.ts:214-424 | over any run, at most one call is in flight at every moment if and only if at every end of a cycle, empty cycles included, the listeners ask nothing that needs a call, or one such question while no request waits; then a waiting request means running, requests start in order of arrival, and every started one but the one in flight has been settled exactly once |
| `Diagnosis.RequestsAreSettled` | plugins/ai-assistant/src/utils/ProactiveDiagnosisManager.ts:409-424 | in such a run, whatever arrives or happens in between, a request is settled after as many answers as were ahead of it |
| `Diagnosis.SettledFirstComeFirstServed` | plugins/ai-assistant/src/utils/ProactiveDiagnosisManager.ts:381-424 | in such a run requests are settled in order of arrival if and only if no cycle ends without a diagnose function while more than one request, queued or in flight, is left |
| `Diagnosis.SettlementOrderReverses` | plugins/ai-assistant/src/utils/ProactiveDiagnosisManager.ts:381-424 | the failing case: with the function gone two waiting requests are settled in the opposite order |
| `Diagnosis.SettlementStaysInOrderExactly` | plugins/ai-assistant/src/utils/ProactiveDiagnosisManager.ts:381-424 | the same condition for one step; settled requests stay settled |
| `Diagnosis.ListenerBreaksSingleFlight` | plugins/ai-assistant/src/utils/ProactiveDiagnosisManager.ts:309-424 | the same condition for one step, for any number of questions; otherwise two calls are in flight, never more |
| `Diagnosis.AskAllOutcome` | plugins/ai-assistant/src/utils/ProactiveDiagnosisManager.ts:323-342 | of any number of questions at the end of a cycle the first that the cache does not answer is called for, every further one is queued, even one about the same event |
| `Diagnosis.TwoQuestionsBreakSingleFlight` | plugins/ai-assistant/src/utils/ProactiveDiagnosisManager.ts:309-342 | the failing case: two unanswered questions at the end of an empty cycle, with nothing in the queue |
| `Diagnosis.TopEventsAreDistinct` | plugins/ai-assistant/src/utils/ProactiveDiagnosisManager.ts:518-530 | the events extracted from any list are about distinct workloads |
| `Diagnosis.OneSuccessExactly` | plugins/ai-assistant/src/utils/ProactiveDiagnosisManager.ts:174-424 | over any run with one call at a time, cleared caches and lost functions included, at every moment no workload has been, or will be by good answers to what is in line, diagnosed with success twice, if and only if no step brings a workload twice or one that is there already |
| `Diagnosis.StepRepeatsExactly` | plugins/ai-assistant/src/utils/ProactiveDiagnosisManager.ts:174-424 | the same for one step of any kind |
| `Diagnosis.CycleRepeatsExactly` | plugins/ai-assistant/src/utils/ProactiveDiagnosisManager.ts:222-295 | for a cycle with new events: if and only if two of the new events are about one workload |
| `Diagnosis.OneSuccessPerWorkload` | plugins/ai-assistant/src/utils/ProactiveDiagnosisManager.ts:222-295 | in particular over any run of cycles on extracted events and of requests and questions about workloads neither diagnosed nor about to be, with no cleared cache |
| `Diagnosis.SingleRequestRepeatsExactly` | plugins/ai-assistant/src/utils/ProactiveDiagnosisManager.ts:323-342 | for a single-event request that makes a call, which bypasses the check: if and only if its workload was diagnosed already or about to be |
| `Diagnosis.ClaimsBecomeSuccesses` | plugins/ai-assistant/src/utils/ProactiveDiagnosisManager.ts:280-316 | as many good answers as there are claimed workloads turn exactly those into successes, in order |
| `Diagnosis.DuplicatesAreDiagnosedTwice` | plugins/ai-assistant/src/utils/ProactiveDiagnosisManager.ts:224-226 | a failing case: on events that were not deduplicated one cycle diagnoses a workload twice |
| `Diagnosis.SecondRequestRepeats` | plugins/ai-assistant/src/utils/ProactiveDiagnosisManager.ts:323-342 | another: a request about a workload diagnosed before under another event |
| `Diagnosis.QuestionExactly` | plugins/ai-assistant/src/utils/ProactiveDiagnosisManager.ts:323-342 | an event that waits or was diagnosed is answered as it is; any other, under way or failed included, needs a call, which is queued if the manager runs |
| `Diagnosis.DiagnosedAgainExactlyIfFailed` | plugins/ai-assistant/src/utils/ProactiveDiagnosisManager.ts:174-226 | a workload whose diagnosis failed is diagnosed again in the next cycle, under the same event or another; one diagnosed with success is not |
| `Diagnosis.AskedAgainExactlyIfFailed` | plugins/ai-assistant/src/utils/ProactiveDiagnosisManager.ts:323-342 | the same for a request about the event |
| `Diagnosis.WorkloadInHandIsLeftAlone` | plugins/ai-assistant/src/utils/ProactiveDiagnosisManager.ts:174-187 | a cycle leaves alone a workload that waits, is under way or was diagnosed under another event |
| `Diagnosis.ClearedIsDiagnosedAgain` | plugins/ai-assistant/src/utils/ProactiveDiagnosisManager.ts:465-469 | after the cache is cleared any event is diagnosed again |
| `ToolDispatch.LangChainManager.ProcessToolCalls` | plugins/ai-assistant/src/langchain/LangChainManager.ts:1801-1935 | for every behaviour of the tools: the calls are executed once each, in order, what each left is in the history, and failures are reported |
| `ToolDispatch.LangChainManager.ProcessToolCall` | plugins/ai-assistant/src/langchain/LangChainManager.ts:1807-1887 | what one call leaves: what the tool wrote itself, then an error, an answer, a placeholder for a confirmation, or nothing |
| `ToolDispatch.LangChainManager.HandleToolCalls` | plugins/ai-assistant/src/langchain/LangChainManager.ts:1430-1658 | the history and the follow-up decision of a reply, for every answer of users and tools; the user is asked once, about the calls that need it, and exactly the permitted calls are executed |
| `ToolDispatch.ToolCallAlignment` | plugins/ai-assistant/src/langchain/LangChainManager.ts:1594-1635 | every enabled call has exactly one tool entry before follow-up if and only if approval was refused or every executed call leaves exactly one entry |
| `ToolDispatch.RepliesAreAligned` | plugins/ai-assistant/src/langchain/LangChainManager.ts:1430-1658 | the same for a whole reply, whose history only grows |
| `ToolDispatch.BuiltInAlignment` | plugins/ai-assistant/src/langchain/tools/kubernetes/KubernetesTool.ts:92-198 | a reply of built-in calls is aligned if and only if none of its reads was answered with a message of the assistant only, as after an API error or a log request on a pod of several containers |
| `ToolDispatch.ToldReadGetsNoEntry` | plugins/ai-assistant/src/langchain/tools/kubernetes/KubernetesTool.ts:103-139 | the failing case: such a read gets no tool entry at all |
| `ToolDispatch.ToldRepliesStop` | plugins/ai-assistant/src/langchain/LangChainManager.ts:1632-1657 | and if that happens to all calls of a reply there is no follow-up |
| `ToolDispatch.EntriesOfACall` | plugins/ai-assistant/src/langchain/LangChainManager.ts:1594-1630 | the exact number of entries an enabled call gets in every case |
| `ToolDispatch.OnlyPermittedCallsRun` | plugins/ai-assistant/src/langchain/LangChainManager.ts:1557-1594 | a call runs only if its tool is built in or the user approved it, and at most once |
| `ToolDispatch.PermittedCallsRun` | plugins/ai-assistant/src/langchain/LangChainManager.ts:1577-1613 | and unless approval was refused every call with a permitted identifier does run |
| `ToolDispatch.RunsExactly` | plugins/ai-assistant/src/langchain/LangChainManager.ts:1557-1613 | a call runs if and only if approval was not refused and it is a kubernetes_api_request or approved by the user |
| `ToolDispatch.RefusalRunsNothing` | plugins/ai-assistant/src/langchain/LangChainManager.ts:1614-1658 | when approval is refused no call of the reply runs, built-in ones included, each gets exactly one entry, and the follow-up is made |
| `ToolDispatch.PendingStopsFollowUp` | plugins/ai-assistant/src/langchain/LangChainManager.ts:1640-1653 | while a confirmation is pending there is no follow-up |
| `ToolDispatch.FollowUpExactly` | plugins/ai-assistant/src/langchain/LangChainManager.ts:1640-1656 | told from the outcomes: unless approval was refused, the model goes on if and only if some call was denied or left something, and no executed call waits for a confirmation or left what forbids it |
| `ToolDispatch.BuiltInVerdict` | plugins/ai-assistant/src/langchain/LangChainManager.ts:1640-1656 | for Kubernetes requests: if and only if some request got an entry and none waits for a confirmation |
| `ToolDispatch.KindsExactly` | plugins/ai-assistant/src/langchain/LangChainManager.ts:1594-1630 | what stands for each call: a rejection when approval was refused, a denial exactly when it was not permitted, else what its outcome calls for: the tool's own entries, and a failure, an answer or a placeholder for the confirmation |
| `ToolDispatch.EntriesNameTheirCalls` | plugins/ai-assistant/src/langchain/LangChainManager.ts:1594-1630 | a batch adds nothing to the history but entries for its calls under their names, denials first, and at most one report of failures |
| `ToolDispatch.FailuresAreReported` | plugins/ai-assistant/src/langchain/LangChainManager.ts:1890-1935 | that report is made exactly when some tool threw or reported an error, and names exactly those |
| `ToolDispatch.NothingEnabledRunsNothing` | plugins/ai-assistant/src/langchain/LangChainManager.ts:1430-1500 | a reply that names no enabled tool runs nothing and says which tools it asked for |
| `ResponseCache.Cache.CleanResponseCache` | plugins/ai-assistant/src/langchain/LangChainManager.ts:729-749 | leaves at most thirty entries, those that `CleaningIsSound` characterises |
| `ResponseCache.Cache.Insert` | plugins/ai-assistant/src/langchain/LangChainManager.ts:847-855 | an insertion into a cache of at most 34 entries leaves at most 34 |
| `ResponseCache.CleaningIsSound` | plugins/ai-assistant/src/langchain/LangChainManager.ts:729-749 | cleaning leaves no expired entry and at most thirty, drops live entries only for size and only the surplus, and none it drops is newer than one it keeps |
| `ResponseCache.CleaningInNumbers` | plugins/ai-assistant/src/langchain/LangChainManager.ts:729-749 | in numbers: at most thirty entries are left, none older than 600000 milliseconds, in their order; a younger one goes only when thirty others, none older, stay |
| `ResponseCache.StoringIsLocal` | plugins/ai-assistant/src/langchain/LangChainManager.ts:847-852 | storing a response changes nothing but what is stored under its key |
| `ResponseCache.CacheIsBounded` | plugins/ai-assistant/src/langchain/LangChainManager.ts:847-855 | over any run of insertions, whatever the clock does, the cache holds at most 34 entries after each step |
| `ResponseCache.BoundIsReached` | plugins/ai-assistant/src/langchain/LangChainManager.ts:853-855 | every size up to 34 occurs |
| `ResponseCache.NewestSurvives` | plugins/ai-assistant/src/langchain/LangChainManager.ts:741-748 | the entry just inserted survives its own cleaning when it is the newest |

## Left out

- Informer caches: a read returns the stored object or fails; it is never old. Only the copies a reconciler holds are.
- Lost replies: a call that reports failure has changed nothing in the API server.
- Rule pointers shared between the two reconcilers: a node reconcile is one step in `NodePass`, and in `Deletion` one
  step for each lookup and evaluation; in-place changes of a cached rule's status by both at once are not modelled.
- Deletion.DeletionIsSafe: excludes evaluations that come too late, because the code does not keep lookup and evaluation
  of a rule together; `Deletion.LateEvaluationReaddsTheTaint` shows one, and `Deletion.CleanOnceReleasedExactly` covers
  all runs. Labels of a living node stay as they are, nobody else adds or removes this taint, the rule is not created
  again under the same name after its release, and only the controller edits its finalizer.
- Controller.RuleReadinessController.AddTaintBySpec: during its retries other writers move the node's version but not its
  content; what concurrent edits do to the lists is the subject of `TaintStore`.
- Controller.RuleReadinessController.RemoveTaintBySpec: the same.
- Controller.RuleReadinessController.ProcessDryRun: leaves out the summary text of the result.
- Passes.LivePassConverges: no other writer acts during the pass; concurrent writers are the subject of `TaintStore`.
- Status patches carry no lock; nothing is claimed about lost status updates between the two reconcilers.
- Concurrent changes between the deleted-node listing and the status patch of `Controller.RuleReadinessController.CleanupDeletedNodes`.
- Syntax checks of label keys and values in selectors; selectors otherwise have their Kubernetes meaning.
- The schema of the custom resource, except that the status lists are keyed by non-empty node names with a set taint
  status and hold at most 5000 entries each, and that conditions, mode, taint and selector are immutable: in `Deletion`
  throughout the life of a rule, in `Reconciler` in that a selector differs from the cached one only when a rule was
  deleted and created again while its cache entry stayed. Node conditions are taken to have one of the three statuses
  the schema lets an evaluation record, and names and messages to be of permitted length.
- The webhook's overlap check.
- The time a taint was added, evaluation times, and all event and log messages; the text of errors is one fixed message.
- Back-off between retries, leader election, health endpoints, and all metrics but operations, completions and durations.
- The HTTP health check itself: a check is a result with reason and message; times are whole units, zero is unset.
- ActiveBlockers.BuildActiveBlockerRows: leaves out the evaluation time, the minutes in state and the stuck flag of a row.
- Invalid timestamps of events: the sort of the source has no defined order for them.
- Diagnosis texts, thinking steps, prompts and polling intervals; listeners other than those of cycle-end that ask for
  single-event diagnoses.
- A diagnose function that throws before it returns a promise.
- The streaming variant of tool handling, which runs calls before it writes denials; the enhancement of arguments.
- The place of an older tool entry without an identifier that a read tags as its own: it counts as an entry of the call.
- History entries of other conversations' calls: calls of a reply are taken to have identifiers not yet answered.
- The response cache's key, a 32-bit hash: a hit is not claimed to be for the same message.
- Generated copies, user-interface components, routing, scripts and deployment files.
