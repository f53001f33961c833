# Verification model of the validator controller

This project models, in Dafny, the stateful core of the validator controller: two Kubernetes
reconcilers, and the library with which validator plugins write their results. It proves what
these parts keep over whole runs, with failures, lost patches and concurrent writers.

`dafny verify dfyconfig.toml` checks everything.

## What is modelled

**Deploying plugins** (`Deployment`, `DeploymentLaws`, `DeploymentRuns`, `AttemptDetails`, `SafeSkips`,
`RepeatedPlugins`, `DeploymentLimits`, `Convergence`). A reconciliation of a ValidatorConfig walks
the spec's plugins. It stores a hash of each plugin's values *before* it knows how the deployment goes, skips the plugin if its
condition is True and the hash was already stored, and otherwise tries to install it. Then it
deletes what left the spec and replaces the conditions. `Deployment.ValidatorConfig` is a class
with the source's loops; its methods are proved against the functions `Visit`, `VisitAll`,
`RemoveAll` and `Redeployed`, and the theorems are about these. Helm is a class holding what is
deployed under each release name and a log of calls. How a call ends is an arbitrary oracle, and
a failed call may leave anything behind under its release name. `DeploymentRuns` lets spec edits
and reconciliations interleave and lets each patch land in full, in its annotations only, in its
status only, or not at all, the process perhaps having stopped anywhere between two plugins.
It shows *exactly* which patches keep the records truthful.
`SafeSkips` shows *exactly* which patches make sure that no edit of the spec can ever lead to a
wrong skip, and exactly which edits are deployed. It does so for two demands on the release of a
skipped plugin: that the current values are deployed or, more strictly, that the last Helm call for
it was the successful upgrade that put them there. `RepeatedPlugins` drops the
assumption that a spec names each plugin once. `DeploymentLimits` holds a concrete run against
each assumption.

**Deleting a ValidatorConfig** (`Deletion`). The main routine starts one goroutine per release
and returns early at the first release that is missing or not owned by Helm. All schedules are
covered by a state machine whose moves are the main routine's steps and the completion of one
deletion.

**Aggregating results** (`RuleResults`, `Aggregation`, `AggregationLaws`). A response is folded
into the ordered condition list by upsert, and the overall state is recomputed after each rule.

**Emitting on change** (`Api`, `EmitProtocol`, `EmitLaws`, `EmitRuns`). A reconciliation of a
ValidationResult reads the object, perhaps emits to the sink, and later patches a digest
annotation and one condition. Plugins write state and validation conditions at any moment,
also between the read and the patch, and either half of a patch may fail.
`ProtocolRefinesLedger` is the central result: the whole machinery of annotations, merges and
patches behaves like a four-field ledger.

**Names and rendering** (`Text`, `Strings`, `Slack`, `SlackReading`, `Alertmanager`). The name
normal form, Slack escaping and blocks with a parser that inverts them, and alert construction.

## Assumptions

* SHA-256 and MD5, each followed by base64, the two Unicode tables, the printing of
  timestamps, the clock, and the answers of Helm, sinks and the API server are parameters;
  every theorem holds for all of them.
* A digest is not the empty string (`NonEmptyDigest`), because the source compares a missing
  annotation as "". That the digest distinguishes contents is assumed only where a lemma says
  so, and only of the contents of that run: `PrintingCollides` shows that two different
  contents can be printed alike, whatever the hash function.
* The cluster-api patch helper is not part of this repository. Its contract is taken to be
  the usual one: metadata and status go in separate requests, and each field, and each
  annotation key, that the client changed is written while the others are left alone. The
  general condition list of a ValidationResult is written as a whole.
* Lower-casing fixes a-z, 0-9 and the dash, and none of these is white space (`Standard`).

## Where the code differs from what one may expect

* The comment above the state loop (`pkg/validationresult/validation_result.go:167-170`) asks
  for success only if all conditions are True. The loop also reports success when some are
  True and the others neither True nor False. `CommentHoldsExactly` says when the two agree.
* A rejected emission records the digest like a delivered one, so it is not retried
  (`RejectedIsNotRetried`), and its message stays on the condition after a later success. A result
  that was complete before a sink was configured is not sent until it changes. `UpToDateExactly`
  says under which reads an emission of the latest complete content has always been attempted,
  `DeliveredExactly` under which the sink has always accepted it.
* If annotations and status of a ValidatorConfig do not land together, a plugin may be skipped
  although its current values are not deployed. `SafeExactlyIfTolerable` says which patches make
  that impossible. (`HarmlessExactly` is about the stricter demand that each record be complete.)
  With a plugin named twice it can happen although everything lands: `LandedSafeExactly` says
  when it cannot.
* Only plugin values are hashed: a new chart version alone is not deployed.
  `EditDeployedExactly` says which edits are.
* When a release is missing or not owned by Helm, the finalizer may be removed while earlier
  deletions are still under way (`FinalizerGoesEarlyExactly`), later releases are never deleted, and
  a refused deletion is ignored. `OrphansExactly` says when an owned release can outlive the
  finalizer.
* Results that are nil share the empty rule name and collapse into one condition, so the
  expected number of results is not reached.

## Model

| member | source | states |
|---|---|---|
| Deployment.PluginHashKeyInjective | internal/controller/validatorconfig_controller.go:308-310 | the annotation key is the fixed prefix, a dash and the name, and distinct plugin names have distinct keys |
| Deployment.ValidatorConfig.ConditionIndex | internal/controller/validatorconfig_controller.go:396-403 | the first condition of that type and plugin, or -1 |
| Deployment.ValidatorConfig.UpdatePluginHash | internal/controller/validatorconfig_controller.go:292-305 | tells whether the values' hash was already stored, and stores it, touching no other annotation |
| Deployment.ValidatorConfig.Deploy | internal/controller/validatorconfig_controller.go:169-232 | Helm's new state, the condition, and what was pulled, after credentials, OCI pull, upgrade and the deletion that follows "has no deployed releases" |
| Deployment.ValidatorConfig.DeployPlugins | internal/controller/validatorconfig_controller.go:151-240 | the loop over the spec yields the annotations, Helm calls and conditions of the walk, one condition per plugin |
| Deployment.ValidatorConfig.DeleteRemoved | internal/controller/validatorconfig_controller.go:242-250 | the removal loop performs exactly the specified deletions of releases and annotations |
| Deployment.ValidatorConfig.RedeployIfNeeded | internal/controller/validatorconfig_controller.go:150-254 | both loops and the replacement of the conditions amount to one transition of object and Helm |
| Deployment.ValidatorConfig.Reconcile | internal/controller/validatorconfig_controller.go:123-139 | a reconciliation of a live object performs that transition and ensures the cleanup finalizer |
| Deployment.ValidatorConfig.EnsureFinalizer | internal/controller/validatorconfig_controller.go:364-372 | the finalizer is appended if it is not there |
| Deployment.ValidatorConfig.RemoveFinalizer | internal/controller/validatorconfig_controller.go:375-393 | the finalizer is dropped, the others keep their order, and the object is updated exactly if it was there |
| Deployment.RemovalShortens | internal/controller/validatorconfig_controller.go:384-387 | comparing lengths detects a removal: the filtered list is shorter exactly if the finalizer occurred |
| Deployment.RemovalKeepsOthers | internal/controller/validatorconfig_controller.go:379-384 | removal takes out every occurrence of the finalizer, wherever it stands, and leaves all others in their order |
| Deployment.RemovalConcat | internal/controller/validatorconfig_controller.go:379-384 | removal distributes over concatenation |
| Deployment.FinalizerRoundTrip | internal/controller/validatorconfig_controller.go:364-393 | ensuring keeps the list and adds at most one entry at its end, removing undoes it, and ensuring twice is ensuring once |
| Deployment.HelmClient.Upgrade | internal/controller/validatorconfig_controller.go:223 | a successful upgrade deploys the options, a refused one leaves what the oracle says, and either is logged |
| Deployment.HelmClient.Delete | internal/controller/validatorconfig_controller.go:339-344 | a successful deletion removes the release, a refused one leaves what the oracle says, and either is logged |
| DeploymentLaws.VisitsAlign | internal/controller/validatorconfig_controller.go:155-240 | whichever way each plugin goes, conditions match the spec index by index in name and type |
| DeploymentLaws.VisitsAnnotate | internal/controller/validatorconfig_controller.go:158-159 | each visited plugin's annotation is the hash of the current values and every other annotation is untouched |
| DeploymentLaws.VisitsDecide | internal/controller/validatorconfig_controller.go:161-232 | skips are decided by the state before the reconciliation; skipped plugins keep their condition and the others report their attempt |
| DeploymentLaws.StaleNamesAreStale | internal/controller/validatorconfig_controller.go:243-245 | the names deleted are exactly those of True conditions absent from the spec |
| DeploymentLaws.RemovalIsExact | internal/controller/validatorconfig_controller.go:242-250 | exactly these releases are deleted, in order, with their annotations and no others |
| DeploymentLaws.RedeployAligns | internal/controller/validatorconfig_controller.go:150-254 | after any reconciliation, repeated names included, conditions match the spec and each annotation is the current hash, gone, or as before |
| DeploymentLaws.RedeployDecides | internal/controller/validatorconfig_controller.go:150-254 | with distinct names: every new condition, exactly which plugins are attempted, and the deletions that end the call log |
| DeploymentRuns.AttemptEffect | internal/controller/validatorconfig_controller.go:178-232 | an attempt affects no other release; its own ends running its options, or broken, or untouched if Helm was not reached |
| AttemptDetails.SuccessDeploys | internal/controller/validatorconfig_controller.go:169-223 | after a reconciliation a plugin whose attempt succeeded runs, exactly from an OCI registry, the pulled archive with no chart name and no leading v in the version, and otherwise its chart by name with the version as written; all else is the spec's |
| AttemptDetails.PullInDetail | internal/controller/validatorconfig_controller.go:188-214 | a chart is pulled exactly from an OCI registry once the credentials are there; from where and to where |
| AttemptDetails.AttemptCalls | internal/controller/validatorconfig_controller.go:178-231 | the Helm calls of an attempt: none, an upgrade, or a failed upgrade followed by a deletion exactly if its error contains "has no deployed releases" |
| AttemptDetails.ContainsExactly | internal/controller/validatorconfig_controller.go:226 | the text is found anywhere in the error |
| AttemptDetails.AttemptRecorded | internal/controller/validatorconfig_controller.go:178-232 | the condition recorded is False with the first error of the stages gone through, or True with the message of buildHelmChartCondition |
| DeploymentRuns.StoppedOwns | internal/controller/validatorconfig_controller.go:155-250 | wherever a reconciliation stops, each plugin's release is as its own attempt left it, or as before if not reached |
| DeploymentRuns.StoppedRemoves | internal/controller/validatorconfig_controller.go:242-250 | and the release of a removed plugin is as its own deletion left it, or as before if not reached |
| DeploymentRuns.RedeployTreats | internal/controller/validatorconfig_controller.go:155-250 | after a whole reconciliation each plugin's release is as its own attempt left it and its hash is stored |
| DeploymentRuns.HarmlessExactly | internal/controller/validatorconfig_controller.go:124-131 | from a state where every True condition has its hash stored and stands for the last Helm call, a reconciliation leaves such a one if and only if its patch lands, or what is lost did not matter to that |
| DeploymentRuns.SoundExactlyIfHarmless | internal/controller/validatorconfig_controller.go:150-254 | over any run of edits and reconciliations from empty status, every True condition stands for the last successful upgrade with its hash stored, if and only if every patch was harmless |
| DeploymentRuns.SkippedPluginsAreDeployed | internal/controller/validatorconfig_controller.go:161-167 | in every reachable state a plugin that would be skipped already runs its current values, up to equality of hashes |
| DeploymentRuns.UnrecordedUntilDeployed | internal/controller/validatorconfig_controller.go:161-232 | over any run, a plugin not recorded as deployed stays unrecorded exactly until an attempt on it succeeds and the status lands |
| DeploymentRuns.LeftoverNeverSuppresses | internal/controller/validatorconfig_controller.go:159-167 | over any run of edits and landings after a landed reconciliation without it, an annotation left behind by a plugin never makes its return be skipped, until an attempt succeeds and its status lands |
| SafeSkips.SafeExactlyIfKept | internal/controller/validatorconfig_controller.go:158-167 | for either demand: no edit can be skipped wrongly if and only if each plugin recorded as deployed has no stored hash or runs values of that hash |
| SafeSkips.RunsAfterwards | internal/controller/validatorconfig_controller.go:161-232 | for either demand: what a plugin's release runs after its attempt, by whether it was skipped, upgraded, stopped before Helm or failed |
| SafeSkips.OwnAttemptLeaves | internal/controller/validatorconfig_controller.go:161-232 | what is deployed under the plugin's name after its attempt, by each way it can go |
| SafeSkips.KeptExactlyIfTolerable | internal/controller/validatorconfig_controller.go:124-131 | for either demand: a reconciliation keeps skips safe if and only if its patch lands or what is lost is tolerable, landing by landing and wherever it stopped |
| SafeSkips.SafeExactlyIfTolerable | internal/controller/validatorconfig_controller.go:150-254 | over any run from empty status, a plugin that would be skipped always has its current values deployed, up to equality of hashes, if and only if every patch was tolerable; and likewise with the stricter demand that the last Helm call put them there |
| SafeSkips.HarmlessIsTolerable | internal/controller/validatorconfig_controller.go:124-131 | patches that keep every record complete are tolerable, for either demand |
| SafeSkips.EditDeployedExactly | internal/controller/validatorconfig_controller.go:158-176 | after an edit a recorded plugin is attempted if and only if its values' hash is not the stored one; if not, its release is what the edit asks for if and only if nothing but a leading v of an OCI version was edited |
| RepeatedPlugins.WalkLeaves | internal/controller/validatorconfig_controller.go:155-240 | with names repeated, each release ends as the last entry that reached Helm left it |
| RepeatedPlugins.EntryRuns | internal/controller/validatorconfig_controller.go:178-232 | what that entry left: its values if its upgrade succeeded; otherwise, by the stricter demand, nothing, and by the other, whatever is deployed |
| RepeatedPlugins.LandedSafeExactly | internal/controller/validatorconfig_controller.go:150-254 | for either demand, from any state and with any names, a landed reconciliation leaves skips safe if and only if, name by name, a first entry recorded as deployed means that the last entry that reached Helm left the last entry's values |
| DeploymentLimits.AnnotationsAloneMislead | internal/controller/validatorconfig_controller.go:159-167 | a run where only the annotations land and the new values are never deployed |
| DeploymentLimits.LostAnnotationsMislead | internal/controller/validatorconfig_controller.go:159-167 | a run where the annotations are lost and going back to the old values is skipped |
| DeploymentLimits.FailureMayBeTolerated | internal/controller/validatorconfig_controller.go:223-232 | a run whose lost patch keeps skips safe as to deployed values but not as to the last Helm call |
| DeploymentLimits.VersionChangesAreSkipped | internal/controller/validatorconfig_controller.go:294 | a change of the chart version alone is skipped, whatever Helm would answer: an instance of EditDeployedExactly |
| DeploymentLimits.RepeatedNamesMislead | internal/controller/validatorconfig_controller.go:155-167 | a run with a plugin named twice where a refused upgrade is skipped afterwards |
| Convergence.QuietReconcile | internal/controller/validatorconfig_controller.go:161-167 | with every plugin skipped and none removed, no Helm call is made and no annotation changes |
| Convergence.RoundsProgress | internal/controller/validatorconfig_controller.go:150-254 | after n rounds a plugin is True exactly if it fails fewer than n times, and has been attempted min(n, failures + 1) times |
| Convergence.ConvergesExactly | internal/controller/validatorconfig_controller.go:150-254 | all conditions are True after n rounds if and only if each plugin fails fewer than n times, with exactly one attempt more than failures |
| Convergence.ConvergedStays | internal/controller/validatorconfig_controller.go:150-254 | from then on a reconciliation changes nothing and calls Helm for nothing |
| Deletion.RunTally | internal/controller/validatorconfig_controller.go:313-336 | the invariant of all schedules: who is started, pending and finished at every point of the main routine |
| Deletion.StartsExactlyTheOwnedPrefix | internal/controller/validatorconfig_controller.go:315-331 | under every schedule the deletions started are exactly those of the longest prefix found and owned, each once |
| Deletion.FinalizerGoesEarlyExactly | internal/controller/validatorconfig_controller.go:316-335 | some schedule removes the finalizer with a deletion pending if and only if a missing or unowned release follows an owned one |
| Deletion.BrokenLookupKeepsFinalizer | internal/controller/validatorconfig_controller.go:108-110 | if the lookup after the owned prefix fails otherwise, no schedule removes the finalizer, and that error is what deletePlugins returns |
| Deletion.FinalizerReachableExactly | internal/controller/validatorconfig_controller.go:97-119 | however a schedule began, it can go on to remove the finalizer if and only if that lookup does not fail so: nothing gets stuck |
| Deletion.DeletionUnderEverySchedule | internal/controller/validatorconfig_controller.go:97-119 | with all releases owned, every schedule completes one deletion per plugin before the finalizer goes, and Helm ends as if they had been made in spec order |
| Deletion.CallsInOrder | internal/controller/validatorconfig_controller.go:328-344 | the calls added are one deletion per finished goroutine, in order of completion |
| Deletion.OrphansExactly | internal/controller/validatorconfig_controller.go:313-344 | some schedule removes the finalizer with an owned release still deployed if and only if the main routine stops at a missing or unowned release with an owned one anywhere else, or a deletion leaves something behind |
| RuleResults.ValidationRuleResult.Finalize | pkg/types/types.go:21-28 | an error fails the result, replaces its message and is appended to its failures; AggregationLaws.StoredAsReported says what is then stored |
| Aggregation.AddedResultComesLast | pkg/types/types.go:37-40 | adding a result adds one update, with its own error, at the end of what Finalize does, and gets through exactly if the rest does and the result has a state or an error |
| Aggregation.GetConditionIndexByValidationRule | pkg/validationresult/validation_result.go:199-206 | the first condition for the rule, or -1 |
| Aggregation.UpdateStatus | pkg/validationresult/validation_result.go:154-185 | finalises the result, upserts its condition and recomputes the state: Failed if any is False, else Succeeded if any is True, else the rule's own |
| Aggregation.Finalize | pkg/validationresult/validation_result.go:137-151 | where the source does not panic, the loop leaves the status, and every result object, as the fold of these updates; nil results and objects that occur twice included |
| Aggregation.UnsharedResults | pkg/validationresult/validation_result.go:137-151 | if no object occurs twice, Finalize gets through exactly if each result has an error slot and each entry a state or an error; it is then the fold over the entries' values |
| Aggregation.AlignedResponse | pkg/validationresult/validation_result.go:137-151 | an aligned response without shared objects gets through if and only if every position has an error, or a result with a state |
| Aggregation.HandleNew | pkg/validationresult/validation_result.go:93-116 | a created object starts InProgress and empty and is patched as such, once; a failed creation changes nothing and asks for no patch |
| Aggregation.SafeUpdate | pkg/validationresult/validation_result.go:119-133 | the status is finalised first; then one patch is asked for, of the object with that status and all else as before, and its error is returned |
| AggregationLaws.OnlyTheLastStateCounts | pkg/validationresult/validation_result.go:137-185 | recomputing the state after every rule gives the same as recomputing it once at the end |
| AggregationLaws.UpsertIsOverride | pkg/validationresult/validation_result.go:160-165 | every rule maps to its last entry in the batch, or else to what it mapped to before, and existing positions are kept |
| AggregationLaws.UpsertKeepsOrder | pkg/validationresult/validation_result.go:160-165 | new rules are appended in order of first appearance, none is lost or doubled, and the length is the size of the union |
| AggregationLaws.FinalizeOverrides | pkg/validationresult/validation_result.go:137-165 | Finalize refines last-writer-wins override of a map from rules to finalised conditions |
| AggregationLaws.StoredAsReported | pkg/types/types.go:21-28 | after a batch the last entry of a rule is stored as reported or, with an error, as failed: the error after the reported failures, the fixed message, type, details and time as reported |
| AggregationLaws.BatchKeepsState | pkg/validationresult/validation_result.go:171-180 | a batch of True/False outcomes keeps the state in agreement with the conditions and never ends InProgress unless empty |
| AggregationLaws.StateOverRuns | pkg/validationresult/validation_result.go:93-185 | over all runs: InProgress exactly without conditions, Failed exactly with a False one, Succeeded otherwise; rule names stay distinct |
| AggregationLaws.StateByWords | pkg/validationresult/validation_result.go:171-180 | after any batch: Failed if some rule's word is False, else Succeeded if some is True, else what the last entry says of itself |
| AggregationLaws.LastBadEntryFails | pkg/validationresult/validation_result.go:135-151 | a rule whose last entry errs or is False fails the whole result |
| AggregationLaws.CommentHoldsExactly | pkg/validationresult/validation_result.go:167-180 | a batch leaves the state that the comment describes if and only if, counting for each rule its last entry or what was stored, some rule is False, or all are True, or none is True and the last entry calls itself in progress |
| AggregationLaws.CommentFailsForUnknown | pkg/validationresult/validation_result.go:167-180 | a first batch of one True and one Unknown result already counts as success |
| AggregationLaws.RevalidationIsSilent | pkg/validationresult/validation_result.go:137-185 | a batch, in any order, changes nothing but times if and only if the last entry of every rule repeats what is stored; then order, state and digest stay, and a distinguishing digest stays only then |
| AggregationLaws.OnlyTimesChangeExactly | pkg/validationresult/validation_result.go:160-165 | the same for the condition list alone, from any list, repeated rules included |
| AggregationLaws.AllCountedExactly | pkg/validationresult/validation_result.go:137-165 | a first batch leaves as many conditions as entries if and only if no two entries share a rule |
| AggregationLaws.NilResultsCollapse | pkg/validationresult/validation_result.go:139-146 | two nil results leave fewer conditions than entries |
| Api.ValidationResult.Hash | api/v1alpha1/validationresult_types.go:137-152 | feeding the digester piece by piece, with copies whose time is zeroed, computes the digest of the content |
| Api.HashIgnoresTimes | api/v1alpha1/validationresult_types.go:144-148 | contents that differ at most in validation times have the same digest |
| Api.DigestTellsComponents | api/v1alpha1/validationresult_types.go:137-142 | of two contents that differ in UID, plugin, expected count or state alone, an injective hash has equal digests if and only if the component has the same text |
| Api.DigestTellsConditionComponents | api/v1alpha1/validationresult_types.go:144-148 | and likewise for type, rule, message, status, details or failures of one condition at any position, whose time never matters |
| Api.DigestText | api/v1alpha1/validationresult_types.go:137-151 | the text that is hashed, written out for a result with one condition |
| Api.PrintingCollides | api/v1alpha1/validationresult_types.go:140-148 | for every hash function, two different contents print alike |
| EmitProtocol.GetConditionByType | internal/controller/validationresult_controller.go:182-189 | the first condition of the type, or -1 and an empty one |
| EmitProtocol.Reconcile | internal/controller/validationresult_controller.go:83-141 | whether it emits, and the whole copy about to be patched |
| EmitLaws.ReconcileRecordsHash | internal/controller/validationresult_controller.go:128-134 | the copy keeps the content and carries the digest of what was read, delivered or not |
| EmitLaws.ReconcileTouchesOneCondition | internal/controller/validationresult_controller.go:86-141 | only the SinkEmission condition changes, or is appended; its reason, message, status and time in every case |
| EmitLaws.ReconcilePatchEffect | internal/controller/validationresult_controller.go:192-201 | the patch changes at most the digest annotation and the condition list, never what a plugin wrote since the read |
| EmitLaws.PluginPatchWrites | pkg/validationresult/validation_result.go:119-133 | a plugin's patch whose status lands writes its state and conditions and nothing else |
| EmitLaws.PatchesCommute | internal/controller/validationresult_controller.go:192-201 | a plugin's patch and a reconciliation's patch commute, whichever halves land |
| EmitLaws.RunTracks | internal/controller/validationresult_controller.go:83-141 | over all interleavings the stored digest is that of the last content read, unless that patch failed |
| EmitLaws.EmissionBound | internal/controller/validationresult_controller.go:83-134 | emissions are at most one, plus changes of digest between reads, plus failed annotation patches |
| EmitLaws.ReadEmitsExactlyOnNews | internal/controller/validationresult_controller.go:106-126 | after a landed patch a read emits if and only if the sink is on, the state is Failed or Succeeded, there are exactly as many conditions as expected, and the digest is new |
| EmitLaws.OnlyFinalContentsAreSent | internal/controller/validationresult_controller.go:106-119 | over every run nothing is sent of a result in progress, or with more or fewer conditions than expected |
| EmitLaws.ProtocolRefinesLedger | internal/controller/validationresult_controller.go:78-141 | over every run, what is sent is exactly what a ledger of the last recorded content sends |
| EmitLaws.SentTwiceExactlyIfPatchFails | internal/controller/validationresult_controller.go:119-134 | a content is sent twice in a row exactly if the annotation patch in between failed |
| EmitRuns.UpToDateExactly | internal/controller/validationresult_controller.go:78-141 | over any run, with any sinks, answers, patches, digests and spec edits, an emission of the latest complete content read has been attempted at every point, if and only if every read of a complete content finds a sink and its digest not stored, or no news |
| EmitRuns.DeliveredExactly | internal/controller/validationresult_controller.go:78-141 | and the sink has accepted it at every point, if and only if every such read also meets a sink that accepts |
| EmitRuns.LatestIsNotified | internal/controller/validationresult_controller.go:78-141 | in particular either holds with a sink at every read, one that accepts for the second, landed annotation patches and a digest that tells the contents read apart |
| EmitRuns.SinkConditionTells | internal/controller/validationresult_controller.go:86-141 | over every run with landing status patches, the SinkEmission condition says NA exactly if nothing was emitted, Succeeded or Failed exactly as the last emission went, always with status True and the message of the last rejection |
| EmitRuns.DeliveriesAgree | internal/controller/validationresult_controller.go:119-126 | the log of deliveries grows exactly with emissions whose answer is delivered |
| EmitRuns.SinkAddedLate | internal/controller/validationresult_controller.go:119-134 | a content read before the sink was configured is not sent afterwards, and the guard of UpToDateExactly is violated |
| EmitRuns.RejectedIsNotRetried | internal/controller/validationresult_controller.go:119-134 | a rejected emission counts as attempted, violates the guard of DeliveredExactly, and is not made up for by a sink that would accept the next |
| EmitRuns.FailedPatchLosesNews | internal/controller/validationresult_controller.go:128-134 | one failed patch between two changes of content loses a notification, and the guard of UpToDateExactly is violated |
| EmitRuns.QuietRun | internal/controller/validationresult_controller.go:83-134 | once the digest is stored nothing is emitted while the content stays, whatever fails |
| EmitRuns.RevalidationsKeepContent | pkg/validationresult/validation_result.go:137-185 | any number of repeating rounds keeps the content up to times |
| EmitRuns.FirstPassNotifiesOnce | internal/controller/validationresult_controller.go:117-134 | whatever the interleaving of single-rule updates with reconciliations, nothing is sent before the last rule has reported, and from then on the final content once; sink and landed patch are asked only of reconciliations that read the final content |
| EmitRuns.FirstPassThenSilence | internal/controller/validationresult_controller.go:117-134 | further rounds without news, with any reconciliations and failing patches, are never sent |
| Strings.DeDupeStrSlice | pkg/util/strings.go:7-17 | the distinct elements in order of first appearance |
| Strings.DeDupeIsDistinct | pkg/util/strings.go:7-17 | no element twice and the same elements as before |
| Strings.DeDupeKeepsFirstAppearance | pkg/util/strings.go:7-17 | elements keep the order of their first occurrences |
| Strings.Sanitize | pkg/util/strings.go:21-47 | the loop with its dash flag collapses runs of dashes, between mapping and trimming |
| Strings.SanitizeJoinsWords | pkg/util/strings.go:21-47 | the result is the dash-join of the maximal runs of a-z and 0-9 of the lower-cased string; trimming white space never matters |
| Strings.SanitizeFixedPoints | pkg/util/strings.go:19-47 | the fixed points are exactly the strings over a-z, 0-9 and dash without leading, trailing or doubled dash; sanitising is idempotent |
| Strings.SanitizeConcat | pkg/util/strings.go:21-47 | sanitising two parts joined by a dash joins what is left of each |
| Strings.NameShape | pkg/validationresult/validation_result.go:63-66 | a name is validator-plugin followed by the sanitised plugin code and object name, and is in normal form |
| Slack.EscapeConcat | pkg/sinks/slack.go:129-135 | escaping distributes over concatenation |
| Slack.EscapeIsSimultaneous | pkg/sinks/slack.go:131-133 | the three successive replacements equal one per-character escape |
| Slack.UnescapeInvertsEscape | pkg/sinks/slack.go:131-133 | a decoder undoes the escaping |
| Slack.NoRawBrackets | pkg/sinks/slack.go:131-133 | no raw angle bracket is left |
| Slack.AmpersandsStartEntities | pkg/sinks/slack.go:131-133 | every ampersand left starts one of the three entities |
| Slack.BuildSlackBlocks | pkg/sinks/slack.go:66-127 | the nested loops build the preamble and the blocks of every condition in order |
| SlackReading.ConditionReadsBack | pkg/sinks/slack.go:84-120 | a parser recovers one condition from its blocks, whatever follows |
| SlackReading.MessageReadsBack | pkg/sinks/slack.go:66-127 | header, state line and divider; then the parser, over the literal block texts, recovers type, rule, message, details and failures of every condition in order; the length is as the lists determine |
| Alertmanager.BuildAlerts | pkg/sinks/alertmanager.go:106-127 | one alert per condition, in order, with its labels and annotations |
| Alertmanager.AlertsTell | pkg/sinks/alertmanager.go:108-127 | key by key, what the labels and annotations of an alert say |
| Alertmanager.LabelsIdentifyAlerts | pkg/sinks/alertmanager.go:110-115 | the label sets of a result's alerts are pairwise distinct |
| Alertmanager.ListsSplitBack | pkg/sinks/alertmanager.go:122-123 | the pipe-joined details and failures split back if and only if the list is not empty and no element holds a pipe |

## Left out

- Aggregation.Finalize: two result objects do not share one condition; in the source they could, through a pointer. It is not called where the source panics.
- Aggregation.UnsharedResults: every result has a condition; one whose condition pointer is nil, on which the source panics, cannot be represented.
- AggregationLaws.FinalizeOverrides: this and the other laws of the fold are about responses in which no result object occurs twice, which is how plugins build them.
- Deployment.ValidatorConfig.Reconcile: the retrieval of the object, the branches for a deleted namespace or object, and the gRPC cleanup request.
- Deployment.ValidatorConfig.Deploy: user name, password and CA file are not part of the options; reading them, creating the OCI client and pulling the chart are reduced to an optional error. Removing the local chart directory is left out. The OCI scheme prefix, and that a pull writes the file named there with the extension tgz, come from a module that is not part of this repository.
- DeploymentRuns.StoppedOwns: a process that stops inside one plugin's attempt, between a failed upgrade and the deletion that follows it.
- Deployment.ValidatorConfig.RemoveFinalizer: the server's copy after a failed update.
- Deletion.DeletionUnderEverySchedule: a goroutine's deletion is one atomic step, and its outcome depends on the plugin, not on the schedule. That a scheduler is fair is not claimed; FinalizerReachableExactly shows that no schedule gets stuck.
- SafeSkips.SafeExactlyIfTolerable: specs that name each plugin once; for others RepeatedPlugins.LandedSafeExactly covers every landed reconciliation from every state, but not patches that land in part.
- DeploymentRuns.SoundExactlyIfHarmless: users editing annotations or conditions by hand; a spec edit between read and patch is one ordered after the reconciliation.
- EmitRuns.UpToDateExactly: other writers of the general condition list.
- EmitProtocol.Reconcile: reading the sink secret, configuring the sink and posting are reduced to delivered or rejected; fetching the objects and logging are left out.
- Strings.Sanitize: strings are sequences of characters; invalid UTF-8 and characters whose lower case has another length in bytes are not distinguished.
- Slack.BuildSlackBlocks: the types of the Slack library beyond header, section and divider, and the logged JSON.
- Configuration and network calls of the sinks, Helm's command lines, release secrets, plugin frequency, building result objects, logging of existing results, generated code and the command's entry point.
