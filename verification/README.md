# Verification of the Doris operator's rollout, scale-in and storage logic

The Doris operator runs Apache Doris clusters on Kubernetes. This project models the parts of it where a
mistake loses data or availability, and proves what they keep over every run:

* **The graceful rollout.** The operator means to drain a backend pod of a compute group before it deletes it,
  to restart or to remove it. The protocol is one record, stored as an annotation of the StatefulSet, which
  one handler per reconcile moves through TriggerDrain, WaitDrain, DeletePod, WaitPodReady and WaitBEAlive to
  the next pod or to Done. A scale-down may pre-empt a rolling update, and a conflicting write loses a step.
* **The decommission protocol.** Before a compute group shrinks, surplus backends are decommissioned, emptied
  and dropped. The decision uses only counts; the choice of nodes uses ordinals.
* **The StatefulSet reconcile** that orders the decommission gate, the graceful step and the apply.
* **Names and storage.** Pod ordinals, claim names, unique names for mount paths, the volume plan, the growth
  of claims and the collection of unused ones.
* **FE scale-in.** The replica clamp and the choice of the observers to drop.

`dafny verify dfyconfig.toml` checks everything.

## How the model is built

Code that updates things in place is modelled in place: the record, the StatefulSet, the group status, the
API server's object, the claim store and the FE spec are classes, and loops stay loops. Each method is tied
by its `ensures` to a function on values, and the theorems are about those functions and about runs of them:

| files | content |
|---|---|
| `GracefulTypes`, `GracefulSpec`, `GracefulAction` | the record, the handlers as functions, the handlers in place |
| `HandlerReadings`, `EventReadings`, `RolloutReadings` | the same handlers, effects and reconcile read off the raw fields of pods, backends and clock |
| `GracefulRollout` | one reconcile: detect, pre-empt, run a handler, prepare or finalize |
| `GracefulRuns`, `GracefulOrder`, `GenerationRuns`, `BackendPolls` | safety over all runs |
| `LostRecordRuns` | runs in which a lost record breaks the order |
| `RollingRun` | order, exact counts and termination of an undisturbed rolling update |
| `ScaleDownRun` | when a scale-down never ends, and a way in which it descends pod by pod |
| `DoneRuns` | when a rolling update counts as Done, and for how long |
| `Decommission`, `ScaleIn`, `StatefulSetReconcile` | the decommission protocol and the whole StatefulSet reconcile |
| `ScaleInReadings`, `ApplyReadings` | which backends each command names and that the protocol can finish; what an apply leaves, field by field |
| `LiveRuns` | every run of the whole reconcile is a run of the rollout |
| `GoStrings`, `IntSets`, `PodNames`, `PathNaming`, `VolumePlan`, `PvcNames`, `PvcReconcile` | codecs and storage |
| `FeScaleDown` | FE scale-in |

A run of the rollout (`GracefulRuns.Run`) lets the environment do anything between and during reconciles:
every read may return anything or fail, every write may be refused or lost, and the desired StatefulSet may
change. Hypotheses are stated only where a theorem needs them. `RollingRun`, which counts steps, assumes that
lists succeed, records persist and nobody else deletes pods. `ScaleDownRun` is about runs of the whole
StatefulSet reconcile.

## What does not hold, and exactly when it does

* **"Decommissioned" does not always mean drained.** If someone else decommissioned a backend that is to stay,
  or one that is to stay is missing, the counts can still add up, and a serving backend is dropped with its
  tablets (`Decommission.OutsideDecommissionDropsData`, `Decommission.MissingBackendDropsData`).
  `Decommission.DecommissionedMeansDrained`: with distinct ordinals and the verdict Decommissioned, the nodes
  picked are all decommissioned and empty if and only if every ordinal below the kept amount has a backend in
  service.
* **A lost pre-emption drains two pods.** When the record of a scale-down that pre-empts a draining or
  deleting rolling update is lost to a conflict, the next pod touched can be the rolling update's, which is
  deleted after the other pod's drain (`GracefulOrder.LostPreemptionDrainsAnotherPod`,
  `LostRecordRuns.LostPreemptionRun`). For such a pre-emption the order is kept if and only if its record
  lands (`GracefulOrder.OrderNeedsLandedPreemption`), and runs that persist every pre-empting record always
  keep it (`GracefulOrder.LastDrainEndsBeforeDelete`).
* **A lost deletion record deletes a fresh pod undrained.** The pod's UID is never compared, so when the
  record of an accepted deletion is lost and the pod is there again, it is deleted again without a drain, if
  and only if the record was lost (`GracefulOrder.RedeletesIffRecordLost`,
  `GracefulOrder.DrainBetweenNeedsLandedDeletion`, `LostRecordRuns.LostDeletionRun`). In runs that persist
  these records a drain lies between any two deletions of a pod (`GracefulRuns.DrainBetweenDeletes`).
* **A graceful scale-down does not end while every apply lands.** After the handler lowers the replica count,
  the same reconcile applies the count it had read at its start. The lower count survives if and only if that
  apply does not land (`StatefulSetReconcile.WrittenCountSurvivesUnlessApplied`). So while every apply lands
  and no handler fails, a scale-down with a pod to remove keeps its count and is never Done
  (`ScaleDownRun.SmoothScaleDownNeverEnds`). It descends when the apply of each deleting reconcile does not
  land: the count stays down, the next reconcile finds the pod gone and moves on
  (`ScaleDownRun.DeletesDownToDesired`, `ScaleDownRun.DescentExists`).
* **Undrained pods are removed.** A reconcile of a stored scale-down applies a smaller desired count instead
  of holding it back if and only if no pod is left to remove, a pod cannot be read, or its deletion is refused
  (`StatefulSetReconcile.CountDropsIffFailedOrDone`). So one failed pod read while waiting for a drain removes
  undrained pods (`StatefulSetReconcile.FailedReadDropsUndrainedPods`), and so does lowering the desired count
  while a scale-down is stored: the reconcile that finishes it applies the lower count
  (`StatefulSetReconcile.LoweredTargetIsAppliedUndrained`).
* **A rolling update can be Done with outdated pods.** A failed pod list counts as "no outdated pods"
  (`DoneRuns.FinishesIff`). If the list before finalizing then shows an outdated pod, the action stays Done,
  and nothing more is drained or deleted until a scale-down pre-empts it or such a list shows no outdated pod
  (`DoneRuns.StaysDoneIff`, an if-and-only-if, and `DoneRuns.FailedListStopsUpdate`).
* **OnDelete needs an exec configuration.** Without one the graceful step is skipped, and the first landing
  apply turns an annotated StatefulSet back to its own strategy
  (`StatefulSetReconcile.OnDeleteNeedsExecConfig`, an if-and-only-if).
* **"Consecutive" stable observations** (`graceful_rollout.go:74-76`) are consecutive accepted polls: a poll
  that is not accepted does not reset the counter. `BackendPolls.AdvancesAtFirstEnd` states what the code
  does.
* **Path names collide**, so volume names are not always unique. A path collides if all its non-empty
  component suffixes are already names, or if the shortest one that is not becomes one when underscores are
  replaced. For paths without duplicates the returned names are distinct if and only if no path collides with
  the names before it (`PathNaming.FinalNamesDistinctIff`); without underscores only the first kind exists
  (`PathNaming.CollidesIffExhausted`). A path of the first kind gets an earlier path's name
  (`PathNaming.ExhaustedPathCollides`, `PathNaming.SuffixPathCollides`); without dashes in components it is a
  suffix of an earlier path (`PathNaming.ExhaustedIsSuffixOfEarlier`), but a suffix of an earlier path can
  still get a name of its own (`PathNaming.LongerSuffixKeepsItsName`). `PathNaming.UnderscorePathsCollide`
  shows the second kind, and `PathNaming.CleanPathsGetDistinctNames` is a simple sufficient condition on the
  paths alone.
* **An unused claim may never be collected** when the StatefulSet name and a dash occur twice in its name or
  overlap (`PvcNames.OverlappingSeparatorHidesClaim`). `PvcNames.CollectedExactly` is the exact condition,
  for every replica count; at zero it supposes a StatefulSet name that is not dashes alone.

## Model

| member | source | states |
|---|---|---|
| `GracefulActions.SelectNextRollingUpdatePod` | `pkg/controller/sub_controller/disaggregated_cluster/computegroups/graceful_rollout.go:862-907` | The filter-and-sort loop returns the selection function; `RollingRun.SelectsHighestOutdated` says what that is |
| `GracefulActions.GracefulAction.RefreshRollingUpdateTargetRevision` | `pkg/controller/sub_controller/disaggregated_cluster/computegroups/graceful_rollout.go:603-615` | Only a rolling update takes over the StatefulSet's update revision, and only when there is one |
| `GracefulActions.GracefulAction.ResetGracefulPhaseTimer` | `pkg/controller/sub_controller/disaggregated_cluster/computegroups/graceful_rollout.go:933-939` | Clears the timer and nothing else |
| `GracefulActions.GracefulAction.AdvanceToNextPod` | `pkg/controller/sub_controller/disaggregated_cluster/computegroups/graceful_rollout.go:911-931` | Leaves a TriggerDrain record in which only type, target and desired count survive |
| `GracefulActions.GracefulAction.SelectNextPod` | `pkg/controller/sub_controller/disaggregated_cluster/computegroups/graceful_rollout.go:817-859` | The next pod per action type; `GracefulRuns.SelectionFacts` bounds the ordinal |
| `GracefulActions.GracefulAction.HandleTriggerDrain` | `pkg/controller/sub_controller/disaggregated_cluster/computegroups/graceful_rollout.go:269-390` | New record, effects and error are those of the specification function, on every branch |
| `GracefulActions.GracefulAction.CaptureGeneration` | `pkg/controller/sub_controller/disaggregated_cluster/computegroups/graceful_rollout.go:319-350` | The captured pod and backend generation and the drain deadline; nothing else changes |
| `GracefulActions.GracefulAction.DrainCurrentPod` | `pkg/controller/sub_controller/disaggregated_cluster/computegroups/graceful_rollout.go:303-389` | The part after a pod is selected: missing pod, failed read, and the drain issued at most once |
| `GracefulActions.GracefulAction.HandleWaitDrain` | `pkg/controller/sub_controller/disaggregated_cluster/computegroups/graceful_rollout.go:393-454` | New record, effects and error on every branch: gone, terminated, restarted, timed out, waiting; `HandlerReadings.WaitDrainEndsIff` reads them off the pod |
| `GracefulActions.GracefulAction.AfterPodDeleted` | `pkg/controller/sub_controller/disaggregated_cluster/computegroups/graceful_rollout.go:495-518` | Next phase per action type and the replica count written for a scale-down |
| `GracefulActions.GracefulAction.HandleDeletePod` | `pkg/controller/sub_controller/disaggregated_cluster/computegroups/graceful_rollout.go:457-492` | Delete accepted, already gone, refused, or pod unreadable, each with its record and effects |
| `GracefulActions.GracefulAction.HandleWaitPodReady` | `pkg/controller/sub_controller/disaggregated_cluster/computegroups/graceful_rollout.go:540-601` | New record, effects and error; the deadline is extended, never enforced (`GracefulOrder.WaitPodReadyNeverForces`) |
| `GracefulActions.GracefulAction.HandleWaitBEAlive` | `pkg/controller/sub_controller/disaggregated_cluster/computegroups/graceful_rollout.go:618-718` | New record and effects; `BackendPolls.AdvancesAtFirstEnd` characterises it without a counter, `HandlerReadings.AcceptsIff` says which backends count |
| `GracefulActions.GracefulAction.RunGracefulStateMachine` | `pkg/controller/sub_controller/disaggregated_cluster/computegroups/graceful_rollout.go:241-266` | One handler per phase; Done and Failed do nothing; an unknown phase is an error |
| `HandlerReadings.HandlerOfPhase` | `pkg/controller/sub_controller/disaggregated_cluster/computegroups/graceful_rollout.go:241-266` | Which handler each phase runs, that Done and Failed do nothing, and that an unknown phase is an error |
| `HandlerReadings.TriggerSelects` | `pkg/controller/sub_controller/disaggregated_cluster/computegroups/graceful_rollout.go:275-301` | Without a current pod: a rolling update without a revision waits, no next pod means Done, else that pod's drain begins |
| `HandlerReadings.NextPodByCount` | `pkg/controller/sub_controller/disaggregated_cluster/computegroups/graceful_rollout.go:828-855` | A scale-down above its desired count, and a deletion above zero, take the pod of the highest ordinal; otherwise there is none |
| `HandlerReadings.DrainBegins` | `pkg/controller/sub_controller/disaggregated_cluster/computegroups/graceful_rollout.go:319-389` | The new record and the effect of a drain that begins, field by field, from what pod, backend and clock show |
| `HandlerReadings.DrainWithoutPod` | `pkg/controller/sub_controller/disaggregated_cluster/computegroups/graceful_rollout.go:303-317` | A current pod that cannot be read is an error; one that is gone is skipped, or for a rolling update waited for |
| `HandlerReadings.WaitDrainEndsIff` | `pkg/controller/sub_controller/disaggregated_cluster/computegroups/graceful_rollout.go:393-454` | A readable pod's drain ends if and only if its BE container has terminated, or shows more restarts than recorded (none without a container status), or the deadline has passed; else nothing changes |
| `HandlerReadings.DeletePodOutcome` | `pkg/controller/sub_controller/disaggregated_cluster/computegroups/graceful_rollout.go:457-537` | The deletion is issued only for a readable pod; what follows per action type, and when the count is written |
| `HandlerReadings.WaitPodReadyEndsIff` | `pkg/controller/sub_controller/disaggregated_cluster/computegroups/graceful_rollout.go:540-601` | The wait ends if and only if a pod of the name is there and ready; the deadline starts 400 seconds ahead and moves on by 400 when it has passed |
| `HandlerReadings.AcceptsIff` | `pkg/controller/sub_controller/disaggregated_cluster/computegroups/graceful_rollout.go:643-663` | A backend counts if and only if it is alive, its status is empty or readable without a shutdown, its start time is known and not the drained one, and its epoch differs where both are known |
| `HandlerReadings.WaitBEAliveEndsIff` | `pkg/controller/sub_controller/disaggregated_cluster/computegroups/graceful_rollout.go:618-718` | One poll: such a backend is counted, from one when its generation is new, and the second count ends the wait; any other poll ends it only after the deadline |
| `GracefulRollout.DetectGracefulAction` | `pkg/controller/sub_controller/disaggregated_cluster/computegroups/graceful_rollout.go:199-238` | The detected action; `StatefulSetReconcile.DetectsNothingIff` says exactly when there is none |
| `GracefulRollout.ShouldFinalizeGracefulAction` | `pkg/controller/sub_controller/disaggregated_cluster/computegroups/graceful_rollout.go:720-739` | A rolling update may be cleared only when no outdated pod is selected |
| `GracefulRollout.GracefulRolloutReconcile` | `pkg/controller/sub_controller/disaggregated_cluster/computegroups/graceful_rollout.go:83-196` | The whole reconcile in place: desired StatefulSet, group phase, skip flag, error, effects and clearing |
| `GracefulRollout.StatefulSet.PrepareGracefulStatefulSet` | `pkg/controller/sub_controller/disaggregated_cluster/computegroups/graceful_rollout.go:1061-1073` | OnDelete always; replicas held back for scale-down and delete; nothing else changes |
| `GracefulRollout.StatefulSet.FinalizeGracefulAction` | `pkg/controller/sub_controller/disaggregated_cluster/computegroups/graceful_rollout.go:1123-1134` | Annotation removed and OnDelete kept when the patch succeeds, nothing changed when it fails |
| `RolloutReadings.DetectsWhat` | `pkg/controller/sub_controller/disaggregated_cluster/computegroups/graceful_rollout.go:199-238` | Which action is detected, with which target and desired count: a scale-down first, then a changed spec hash, then pods behind an update already applied |
| `RolloutReadings.SupportedIff` | `pkg/controller/sub_controller/disaggregated_cluster/computegroups/graceful_rollout.go:741-764` | A detected action needs sentinel support, except a rolling update whose list fails or shows no outdated pod |
| `RolloutReadings.StartsIff` | `pkg/controller/sub_controller/disaggregated_cluster/computegroups/graceful_rollout.go:106-130` | Without a stored action: the detected, supported action is stored, no pod is touched, and the count is held back for a scale-down only |
| `RolloutReadings.PreemptsIff` | `pkg/controller/sub_controller/disaggregated_cluster/computegroups/graceful_rollout.go:132-139` | A stored rolling update gives way if and only if fewer replicas are wanted than there are, a stored scale-down or deletion never, a record of unknown type to anything detected |
| `RolloutReadings.GoesOnAs` | `pkg/controller/sub_controller/disaggregated_cluster/computegroups/graceful_rollout.go:132-196` | A stored action's reconcile on every branch: desired StatefulSet, skip flag, error, clearing and group phase |
| `GracefulRuns.HandlerKeepsWellFormed` | `pkg/controller/sub_controller/disaggregated_cluster/computegroups/graceful_rollout.go:241-266` | Every handler that succeeds leaves a record that satisfies the persisted-record invariant |
| `GracefulRuns.HandlerKeepsGoal` | `pkg/controller/sub_controller/disaggregated_cluster/computegroups/graceful_rollout.go:269-718` | No handler changes action type, desired count or (refreshed) target revision |
| `GracefulRuns.ActingFacts` | `pkg/controller/sub_controller/disaggregated_cluster/computegroups/graceful_rollout.go:132-157` | Pre-emption: only a detected scale-down replaces a stored rolling update, and it starts fresh |
| `GracefulRuns.RecordIsWellFormed` | `pkg/controller/sub_controller/disaggregated_cluster/computegroups/graceful_rollout.go:105-196` | All runs: TriggerDrain and Done have no current pod; WaitDrain and DeletePod have a triggered, timed pod; WaitPodReady and WaitBEAlive only for rolling updates; scale-down ordinals at or above the desired count; stable observations at most one |
| `GracefulRuns.HandlerHasShape` | `pkg/controller/sub_controller/disaggregated_cluster/computegroups/graceful_rollout.go:269-718` | Which effects each phase may have, in which order, and the record it leaves |
| `GracefulRuns.DrainBeforeDelete` | `pkg/controller/sub_controller/disaggregated_cluster/computegroups/graceful_rollout.go:343-492` | All runs, with pre-emption, errors and lost records: each deletion follows a drain of the same pod by the same action and the end of that very drain (terminated, restarted, or grace period over); between them nothing is drained or deleted but what lost records account for |
| `EventReadings.EventIsShown` | `pkg/controller/sub_controller/disaggregated_cluster/computegroups/graceful_rollout.go:343-601` | All runs: every drain, end of a drain, deletion, Ready observation and count write was made by a reconcile whose readings show exactly what it says |
| `EventReadings.DrainSeenBeforeDelete` | `pkg/controller/sub_controller/disaggregated_cluster/computegroups/graceful_rollout.go:343-492` | All runs, about the readings: a pod is deleted only after a reconcile that found it and began its drain and a later one that found a pod of the name terminated, restarted more often than the first had seen, or more than its grace period later |
| `GracefulRuns.DrainBetweenDeletes` | `pkg/controller/sub_controller/disaggregated_cluster/computegroups/graceful_rollout.go:457-492` | All runs that persist the record of every accepted deletion: between two deletions of a pod it was drained, and that drain ended |
| `GracefulOrder.LastDrainEndsBeforeDelete` | `pkg/controller/sub_controller/disaggregated_cluster/computegroups/graceful_rollout.go:132-139` | All runs that persist every pre-empting record: the last drain before a deletion was on the deleted pod, and it ended |
| `GracefulOrder.LostPreemptionDrainsAnotherPod` | `pkg/common/utils/k8s/client.go:120-125` | A scale-down pre-empts a draining or deleting rolling update, drains its pod, and loses its record to a conflict: if the next pod touched is deleted, it is the rolling update's, right after the other pod's drain |
| `GracefulOrder.OrderNeedsLandedPreemption` | `pkg/controller/sub_controller/disaggregated_cluster/computegroups/graceful_rollout.go:132-139` | For every such pre-emption the order of drains and deletions is kept if and only if its record lands |
| `GracefulOrder.RedeletesIffRecordLost` | `pkg/controller/sub_controller/disaggregated_cluster/computegroups/graceful_rollout.go:465-491` | A pod recreated under a deleted pod's name is deleted by the next reconcile, without a drain, if and only if the record of the first deletion was lost |
| `GracefulOrder.DrainBetweenNeedsLandedDeletion` | `pkg/controller/sub_controller/disaggregated_cluster/computegroups/graceful_rollout.go:465-491` | So a drain lies between any two deletions of a pod if and only if that record lands |
| `LostRecordRuns.LostPreemptionRun` | `pkg/common/utils/k8s/client.go:120-125` | A run from the start state in which a lost pre-emption breaks the order |
| `LostRecordRuns.LostDeletionRun` | `pkg/common/utils/k8s/client.go:120-125` | A run from the start state in which a lost deletion record gets the recreated pod deleted undrained |
| `GracefulOrder.LeftUnseenMeansReady` | `pkg/controller/sub_controller/disaggregated_cluster/computegroups/graceful_rollout.go:574-586` | A deleted pod counts as back only through an observation of it Ready |
| `GracefulOrder.OnePodAtATime` | `pkg/controller/sub_controller/disaggregated_cluster/computegroups/graceful_rollout.go:502-601` | All runs without a scale-down, lost writes included: between deleting a pod and touching another one, the first was seen Ready |
| `GracefulOrder.WaitPodReadyNeverForces` | `pkg/controller/sub_controller/disaggregated_cluster/computegroups/graceful_rollout.go:554-600` | WaitPodReady is left only on a Ready pod; the deadline only moves later |
| `GracefulOrder.ScaleDownStaysAboveFloor` | `pkg/controller/sub_controller/disaggregated_cluster/computegroups/graceful_rollout.go:507-537` | All runs with a fixed desired count: no drain, deletion or replica write of a scale-down goes below it |
| `DoneRuns.FinishesIff` | `pkg/controller/sub_controller/disaggregated_cluster/computegroups/graceful_rollout.go:283-301` | A rolling update about to pick its next pod is stored as Done or cleared if and only if the pod list failed or showed every pod at the target |
| `DoneRuns.StaysDoneIff` | `pkg/controller/sub_controller/disaggregated_cluster/computegroups/graceful_rollout.go:168-196` | A stored Done rolling update leaves that state if and only if a scale-down pre-empts it and its record lands, or the final list shows no outdated pod and the annotation is removed |
| `DoneRuns.DoneUntilLeft` | `pkg/controller/sub_controller/disaggregated_cluster/computegroups/graceful_rollout.go:168-196` | Over runs: it stays Done until then, without any effect while no scale-down comes |
| `DoneRuns.FailedListStopsUpdate` | `pkg/controller/sub_controller/disaggregated_cluster/computegroups/graceful_rollout.go:873-882` | Over runs: after one failed list a rolling update drains and deletes nothing for as long as the final lists show an outdated pod and no scale-down comes |
| `GenerationRuns.DrainCaptures` | `pkg/controller/sub_controller/disaggregated_cluster/computegroups/graceful_rollout.go:319-350` | A drain of an existing pod leaves a record that remembers exactly the generation the readings show |
| `GenerationRuns.AdvancesOnNewGeneration` | `pkg/controller/sub_controller/disaggregated_cluster/computegroups/graceful_rollout.go:319-350` | All runs: before the deadline the wait for the backend ends only after two reconciles saw one and the same live generation, with a start time other than the one the FE showed when the drained generation was captured |
| `BackendPolls.WaitFollowsPolls` | `pkg/controller/sub_controller/disaggregated_cluster/computegroups/graceful_rollout.go:618-718` | After any prefix of polls the record is the starting one tracking the last accepted generation, or the one moved on |
| `BackendPolls.AdvancesAtFirstEnd` | `pkg/controller/sub_controller/disaggregated_cluster/computegroups/graceful_rollout.go:618-718` | For every poll sequence: advances at exactly the first poll that confirms the latest accepted generation, or is not accepted and past the deadline |
| `RollingRun.SelectsHighestOutdated` | `pkg/controller/sub_controller/disaggregated_cluster/computegroups/graceful_rollout.go:862-907` | The selected pod is listed, outdated and of the highest ordinal among such; none is selected only when all are up to date |
| `RollingRun.StepTakesNextPhase` | `pkg/controller/sub_controller/disaggregated_cluster/computegroups/graceful_rollout.go:241-266` | Under the run's hypotheses each reconcile waits or takes the one next phase |
| `RollingRun.DeletionsRunDownwards` | `pkg/controller/sub_controller/disaggregated_cluster/computegroups/graceful_rollout.go:862-931` | At every point: deletions have strictly decreasing ordinals, hit only initially outdated pods, and the outdated pods are the rest |
| `RollingRun.DoneAfterFivePerPod` | `pkg/controller/sub_controller/disaggregated_cluster/computegroups/graceful_rollout.go:283-301` | At Done: exactly the initially outdated pods were deleted, each once, all pods are at the target, after 5k + 1 phase changes |
| `RollingRun.DeletesOnlyOutdated` | `pkg/controller/sub_controller/disaggregated_cluster/computegroups/graceful_rollout.go:457-492` | No pod at the target revision is deleted |
| `RollingRun.StepLowersMeasure` | `pkg/controller/sub_controller/disaggregated_cluster/computegroups/graceful_rollout.go:241-266` | Every step waits or lowers (outdated pods, phase rank) lexicographically |
| `ScaleDownRun.AppliedStep` | `pkg/controller/sub_controller/disaggregated_cluster/computegroups/controller.go:278-316` | A stored scale-down's reconcile that applies: landing stores the new record and the count read at the start, not landing keeps the record and the count the handler wrote |
| `ScaleDownRun.SmoothScaleDownNeverEnds` | `pkg/controller/sub_controller/disaggregated_cluster/computegroups/graceful_rollout.go:193-193` | All runs of the whole reconcile in which every apply lands and no handler fails: a scale-down with a pod to remove keeps its count and is never Done |
| `ScaleDownRun.DeletesDownToDesired` | `pkg/controller/sub_controller/disaggregated_cluster/computegroups/graceful_rollout.go:507-537` | Runs of the whole reconcile in which exactly the applies of deleting reconciles do not land: deletions are N-1 down to the present count, and once cleared that is the desired count after three phase changes per pod and one more |
| `ScaleDownRun.DescentExists` | `pkg/controller/sub_controller/disaggregated_cluster/computegroups/graceful_rollout.go:507-537` | From every point of such a run there is a way to its end |
| `Decommission.ConstructDecommissionTaskStatus` | `pkg/common/utils/resource/decommission.go:41-64` | The three counters are the numbers of in-service, draining and drained backends |
| `Decommission.GetScaledOutBENode` | `pkg/controller/sub_controller/disaggregated_cluster/computegroups/prepare_modify.go:206-232` | The loop returns the ordinal filter, or an error when some host has no ordinal |
| `Decommission.PodNumberOfPod` | `pkg/controller/sub_controller/disaggregated_cluster/computegroups/prepare_modify.go:220-222` | A backend registered under its pod name, with or without a domain, is read with the pod's ordinal |
| `Decommission.ScaledOutMembers` | `pkg/controller/sub_controller/disaggregated_cluster/computegroups/prepare_modify.go:217-231` | The filter picks exactly the nodes with ordinal at or above the kept amount |
| `Decommission.CountsAddUp` | `pkg/common/utils/resource/decommission.go:44-55` | Every backend is in exactly one of the three counts |
| `Decommission.DecommissionedMeansDrained` | `pkg/common/utils/resource/decommission.go:66-78` | When the counts say Decommissioned, all picked nodes are decommissioned and empty if and only if every ordinal below the kept amount has a backend in service |
| `Decommission.ServingBelowIff` | `pkg/common/utils/resource/decommission.go:44-55` | That is: no kept ordinal is missing and no kept node was decommissioned |
| `Decommission.OutsideDecommissionDropsData` | `pkg/common/utils/resource/decommission.go:66-78` | Concrete backends: a kept node decommissioned by someone else makes the verdict Decommissioned while a picked node serves tablets |
| `Decommission.MissingBackendDropsData` | `pkg/common/utils/resource/decommission.go:66-78` | Concrete backends: so does a kept ordinal that is missing |
| `ScaleIn.ScaledOutBENodesByDrop` | `pkg/controller/sub_controller/disaggregated_cluster/computegroups/prepare_modify.go:120-140` | The drop command on exactly the filtered nodes, none when empty, and its error cases |
| `ScaleIn.DecommissionBENodes` | `pkg/controller/sub_controller/disaggregated_cluster/computegroups/prepare_modify.go:142-162` | The decommission command on exactly the filtered nodes, none when empty, and its error cases |
| `ScaleIn.ScaledOutBENodesByDecommission` | `pkg/controller/sub_controller/disaggregated_cluster/computegroups/prepare_modify.go:85-109` | Per verdict: commands, group phase and error; a failed drop is swallowed; `ScaleInReadings.VerdictIff` and `CommandsIff` say which when |
| `ScaleIn.PreApplyStatefulSet` | `pkg/controller/sub_controller/disaggregated_cluster/computegroups/prepare_modify.go:33-118` | When a scale-in is due, which way it goes, and the resulting phase, commands and error |
| `ScaleIn.NoDataIsDropped` | `pkg/controller/sub_controller/disaggregated_cluster/computegroups/prepare_modify.go:85-162` | All runs of check, decommission, migrate and (partial) drop: every dropped node was decommissioned and empty with ordinal at or above the kept amount; the kept nodes stay in service |
| `ScaleInReadings.VerdictIff` | `pkg/common/utils/resource/decommission.go:66-78` | Acceptable if and only if no backend is decommissioned and more than the kept amount are listed; Decommissioning and Decommissioned if and only if the kept amount serves, with or without tablets on decommissioned ones |
| `ScaleInReadings.CommandsIff` | `pkg/controller/sub_controller/disaggregated_cluster/computegroups/prepare_modify.go:85-162` | Exactly when the decommission and the drop command are sent, that each names exactly the nodes at or above the kept amount, and the group phase and error |
| `ScaleInReadings.PreApplyOutcome` | `pkg/controller/sub_controller/disaggregated_cluster/computegroups/prepare_modify.go:33-162` | Nothing without a scale-in; an error without a connection; without decommissioning exactly the surplus is dropped at once |
| `ScaleInReadings.ScaleInCanFinish` | `pkg/controller/sub_controller/disaggregated_cluster/computegroups/prepare_modify.go:85-162` | From any group whose backends all serve, with none missing below the kept amount, some run drops exactly the surplus, decommissioned and empty, and leaves the kept backends as they were |
| `StatefulSetReconcile.ApplyStatefulSet` | `pkg/common/utils/k8s/client.go:92-126` | Failed read, create, skip when equal, patch, swallowed conflict, other error; the hash is stored on the desired object; `ApplyReadings.ApplyOutcome` lists the fields |
| `ApplyReadings.ApplyOutcome` | `pkg/common/utils/k8s/client.go:92-126` | Field by field what an apply leaves: a created object, an equal one untouched, else template, count, strategy and hash of the spec, the annotation kept when none is given, name and revisions kept |
| `ApplyReadings.SecondApplyChangesNothing` | `pkg/common/utils/k8s/client.go:92-126` | After a landed apply, applying the same spec again changes nothing, however it ends |
| `ApplyReadings.ChangedStorageStops` | `pkg/controller/sub_controller/disaggregated_cluster/computegroups/controller.go:248-252` | A changed storage template stops the reconcile with an error and without any effect |
| `ApplyReadings.FailedReadStops` | `pkg/controller/sub_controller/disaggregated_cluster/computegroups/controller.go:226-246` | So does a live object that cannot be read |
| `ApplyReadings.MissingIsCreated` | `pkg/controller/sub_controller/disaggregated_cluster/computegroups/controller.go:226-242` | A missing StatefulSet is created as wanted, without gate or graceful step |
| `ApplyReadings.LandedReconcileDelivers` | `pkg/controller/sub_controller/disaggregated_cluster/computegroups/controller.go:267-316` | A reconcile whose apply lands leaves the wanted template, the strategy it applied, and, unless the stored hash was that of the spec already, its count and hash; name and revisions stay |
| `ApplyReadings.TemplateArrives` | `pkg/controller/sub_controller/disaggregated_cluster/computegroups/controller.go:219-319` | All runs of the operator: after a landing apply the live template is the wanted one |
| `LiveRuns.ReconcileIsStep` | `pkg/controller/sub_controller/disaggregated_cluster/computegroups/controller.go:219-319` | A whole reconcile leaves annotation and pods alone or is a step of the rollout, whose record lands if the apply does |
| `LiveRuns.LiveRunIsRun` | `pkg/controller/sub_controller/disaggregated_cluster/computegroups/controller.go:219-319` | Every run of the operator is a run of the rollout with the same stored annotation and effects |
| `LiveRuns.StoredRecordIsWellFormed` | `pkg/controller/sub_controller/disaggregated_cluster/computegroups/controller.go:219-319` | The persisted-record invariant holds after every run of the operator |
| `LiveRuns.OperatorDrainsBeforeDelete` | `pkg/controller/sub_controller/disaggregated_cluster/computegroups/controller.go:219-319` | Drain before delete over every run of the operator; nothing comes between drain and deletion if every apply lands |
| `StatefulSetReconcile.ReconcileStatefulset` | `pkg/controller/sub_controller/disaggregated_cluster/computegroups/controller.go:219-319` | Order of the read, storage check, decommission gate, graceful step and apply, on every early return |
| `StatefulSetReconcile.ReconcileKeepsOnDelete` | `pkg/controller/sub_controller/disaggregated_cluster/computegroups/controller.go:267-312` | One reconcile keeps: annotated implies OnDelete, for all readings and write outcomes |
| `StatefulSetReconcile.AnnotatedIsOnDelete` | `pkg/controller/sub_controller/disaggregated_cluster/computegroups/controller.go:267-312` | All runs of an operator with an exec configuration: an annotated StatefulSet is OnDelete |
| `StatefulSetReconcile.OnDeleteNeedsExecConfig` | `pkg/controller/sub_controller/disaggregated_cluster/computegroups/controller.go:267-267` | A landing apply of a RollingUpdate spec onto an annotated StatefulSet keeps OnDelete if and only if there is an exec configuration |
| `StatefulSetReconcile.GateNeedsDecommissioned` | `pkg/controller/sub_controller/disaggregated_cluster/computegroups/controller.go:254-312` | With decommissioning enabled: fewer replicas applied, a graceful scale-down stored, or a pod touched for a new one, only after this reconcile's own check said Decommissioned |
| `StatefulSetReconcile.ClearedOnlyWhenUpdated` | `pkg/controller/sub_controller/disaggregated_cluster/computegroups/graceful_rollout.go:168-190` | With a successful list, a rolling update is cleared only if every listed pod carries the update revision |
| `StatefulSetReconcile.ClearedStaysQuiet` | `pkg/controller/sub_controller/disaggregated_cluster/computegroups/graceful_rollout.go:217-235` | After a landed clearing the next reconcile on the same spec and pods does nothing, even if the current revision still differs |
| `StatefulSetReconcile.DetectsNothingIff` | `pkg/controller/sub_controller/disaggregated_cluster/computegroups/graceful_rollout.go:199-238` | No action is detected if and only if no replica is to go, the spec hash is unchanged, and the update revision is absent, current, or on every listable pod |
| `StatefulSetReconcile.RollingStepPersists` | `pkg/controller/sub_controller/disaggregated_cluster/computegroups/controller.go:278-316` | A rolling update's reconcile with a landing apply stores the handler's record, has its effects and no others, and keeps OnDelete |
| `StatefulSetReconcile.WrittenCountSurvivesUnlessApplied` | `pkg/controller/sub_controller/disaggregated_cluster/computegroups/graceful_rollout.go:1068-1073` | The lower count a scale-down writes survives its own reconcile if and only if that reconcile's apply does not land |
| `StatefulSetReconcile.CountDropsIffFailedOrDone` | `pkg/controller/sub_controller/disaggregated_cluster/computegroups/graceful_rollout.go:160-196` | While a stored scale-down holds back a smaller desired count, a smaller count is applied if and only if no pod is left to remove, a pod read fails, or a deletion is refused |
| `StatefulSetReconcile.LoweredTargetIsAppliedUndrained` | `pkg/controller/sub_controller/disaggregated_cluster/computegroups/graceful_rollout.go:168-190` | A desired count lowered while a scale-down is stored is applied by the reconcile that finishes it, without any drain |
| `StatefulSetReconcile.FailedReadDropsUndrainedPods` | `pkg/controller/sub_controller/disaggregated_cluster/computegroups/controller.go:279-294` | A failed pod read while waiting for a drain applies the desired count and leaves the record draining |
| `PodNames.ExtractOrdinal` | `pkg/controller/sub_controller/disaggregated_cluster/computegroups/graceful_rollout.go:1032-1043` | The nested loops return the wrapped number after the last dash, 0 without a dash |
| `PodNames.OrdinalOfPodName` | `pkg/controller/sub_controller/disaggregated_cluster/computegroups/graceful_rollout.go:844-844` | The ordinal read from a generated pod name is the one it was generated from, for every StatefulSet name |
| `PvcNames.FindUnusedClaims` | `pkg/controller/sub_controller/disaggregated_cluster/computegroups/controller.go:657-675` | The loop collects exactly the listed claims whose name parses to an ordinal at or above the replica count; `PvcNames.ClearsExactly` says which of the StatefulSet's claims these are |
| `PvcNames.UsedClaimIsKept` | `pkg/controller/sub_controller/disaggregated_cluster/computegroups/controller.go:657-675` | A claim in use is never collected, whatever the volume and StatefulSet names |
| `PvcNames.CollectedIffUnused` | `pkg/controller/sub_controller/disaggregated_cluster/computegroups/controller.go:657-675` | Separator once and ordinal in 32 bits: collected if and only if the ordinal is not in use |
| `PvcNames.CollectedExactly` | `pkg/controller/sub_controller/disaggregated_cluster/computegroups/controller.go:657-675` | Collected if and only if unused, in 32 bits, and the separator occurs once; at zero replicas for StatefulSet names that are not dashes alone |
| `PvcNames.ClearsNoUsedClaim` | `pkg/controller/sub_controller/disaggregated_cluster/computegroups/controller.go:657-675` | No collection clears the claim of an ordinal in use |
| `PvcNames.ClearsExactly` | `pkg/controller/sub_controller/disaggregated_cluster/computegroups/controller.go:657-675` | A collection clears a claim as often as it is listed if its ordinal is not in use, fits in 32 bits and follows the only separator, and not at all otherwise |
| `GoStrings.ParseIntIff` | `pkg/controller/sub_controller/disaggregated_cluster/computegroups/controller.go:666-670` | The parsed number is the value exactly of an optional sign, zeros and the decimal digits of an integer in range |
| `PvcNames.OverlappingSeparatorHidesClaim` | `pkg/controller/sub_controller/disaggregated_cluster/computegroups/controller.go:660-664` | Concrete names for which an unused claim is never collected |
| `PvcNames.ClaimNamesDiffer` | `pkg/common/utils/resource/persistent_volume_claim.go:43-49` | Distinct (volume, ordinal) pairs have distinct claim names |
| `PathNaming.NamePaths` | `pkg/controller/sub_controller/disaggregated_subcontroller.go:597-621` | The nested loops fill the two maps as the naming function says |
| `PathNaming.GetNameOfEachPath` | `pkg/common/utils/doris/storage_conf.go:69-100` | One name per path, in order, underscores replaced |
| `PathNaming.FoundUnusedIff` | `pkg/common/utils/doris/storage_conf.go:76-90` | The loop over a path stops at an unused name if and only if not every non-empty suffix join of its components is taken |
| `PathNaming.FinalNamesDistinctIff` | `pkg/common/utils/doris/storage_conf.go:69-100` | For paths without duplicates the returned names are distinct if and only if no path collides with the names before it: all its suffix joins are taken, or the one its walk stops at becomes a taken name by the replacement |
| `PathNaming.CollidesIffExhausted` | `pkg/common/utils/doris/storage_conf.go:97-97` | Without underscores in components a path collides if and only if all its suffix joins are taken |
| `PathNaming.DistinctIffNoneExhausted` | `pkg/common/utils/doris/storage_conf.go:72-94` | For paths without duplicates the names before the replacement are distinct if and only if no path has all its suffix joins taken by the names before it |
| `PathNaming.ExhaustedPathCollides` | `pkg/common/utils/doris/storage_conf.go:76-93` | Such a path gets the join of all its components, the name of an earlier path |
| `PathNaming.ExhaustedIsSuffixOfEarlier` | `pkg/common/utils/doris/storage_conf.go:76-93` | Without dashes in components, only a suffix of an earlier path can be such a path |
| `PathNaming.NamesAreInverse` | `pkg/common/utils/doris/storage_conf.go:72-94` | Clean paths: after every iteration the two maps are inverse on the paths seen, each name the join of a component suffix |
| `PathNaming.CleanPathsGetDistinctNames` | `pkg/common/utils/doris/storage_conf.go:69-100` | Clean paths: distinct paths get distinct final names |
| `PathNaming.JoinInjective` | `pkg/common/utils/doris/storage_conf.go:81-85` | Components without dashes are determined by their join |
| `PathNaming.SuffixPathCollides` | `pkg/common/utils/doris/storage_conf.go:76-93` | /dir/leaf and then /leaf both get the name leaf |
| `PathNaming.LongerSuffixKeepsItsName` | `pkg/common/utils/doris/storage_conf.go:76-93` | /top/dir/leaf and then /dir/leaf get the names leaf and dir-leaf: not every suffix collides |
| `PathNaming.UnderscorePathsCollide` | `pkg/common/utils/doris/storage_conf.go:97-97` | Paths that differ only in underscores and dashes get one final name |
| `VolumePlan.BuildRequiredPaths` | `pkg/controller/sub_controller/disaggregated_subcontroller.go:567-594` | Own paths, all configured mount paths, and the log path unless someone says the log is not stored |
| `VolumePlan.RequiredIff` | `pkg/controller/sub_controller/disaggregated_subcontroller.go:567-594` | A path is required if and only if it is an own path, some volume lists it, or it is the log path and neither the component nor any volume says the log is not stored |
| `VolumePlan.IndexVolumes` | `pkg/controller/sub_controller/disaggregated_subcontroller.go:623-634` | Each listed path is mapped to the last volume listing it; the template is the last volume without paths |
| `VolumePlan.BuildVolumes` | `pkg/controller/sub_controller/disaggregated_subcontroller.go:636-687` | Volumes, mounts and claims agree index by index; mount paths are distinct, exactly the required paths that are listed or covered by a template, the one listed last first; the spec is the last listing volume's, else the last template's; names are distinct for clean paths and for paths that do not collide |
| `PvcReconcile.ReconcilePVC` | `pkg/controller/sub_controller/disaggregated_subcontroller.go:400-462` | A failed list writes nothing; else the nested loops end in the store and error of the specification run, stopping at the first refused write |
| `PvcReconcile.NothingShrinks` | `pkg/controller/sub_controller/disaggregated_subcontroller.go:435-456` | All runs, refused writes included: no claim disappears and no request shrinks |
| `PvcReconcile.WantedNamesDiffer` | `pkg/controller/sub_controller/disaggregated_subcontroller.go:410-416` | Managed templates with distinct names ask for pairwise distinct claims |
| `PvcReconcile.PointwiseMaximum` | `pkg/controller/sub_controller/disaggregated_subcontroller.go:410-459` | Error-free: every managed claim below the replica count ends at the larger size, every other claim is untouched, and a second run writes nothing |
| `PvcReconcile.SucceedsIff` | `pkg/controller/sub_controller/disaggregated_subcontroller.go:435-456` | The reconcile succeeds if and only if no write that some wanted claim needs is refused |
| `PvcReconcile.StopsAtBlocked` | `pkg/controller/sub_controller/disaggregated_subcontroller.go:410-459` | At the first refused write it stops: earlier claims are settled, that one and the later ones are as they were |
| `PvcReconcile.WritesAreDifferences` | `pkg/controller/sub_controller/disaggregated_subcontroller.go:435-456` | The writes are exactly the differences between the stores: creations of new claims and patches of grown ones |
| `FeScaleDown.FeCluster.SafeScaleDown` | `pkg/controller/sub_controller/fe/prepare_modify.go:74-99` | The count becomes max(wanted, min(present, election number)) |
| `FeScaleDown.ClampIsLeast` | `pkg/controller/sub_controller/fe/prepare_modify.go:74-99` | The count becomes the least one, not below the wanted one, at which no pod goes or at least no follower |
| `FeScaleDown.PodAddresses` | `pkg/controller/sub_controller/fe/prepare_modify.go:166-176` | The loop maps the address of each pod of the template to its name, the last one winning |
| `FeScaleDown.AddressIff` | `pkg/controller/sub_controller/fe/prepare_modify.go:166-176` | An address leads to a name if and only if the last pod of the template with that address has it |
| `FeScaleDown.BuildSeqNumberToFrontendMap` | `pkg/common/utils/mysql/doris.go:89-111` | The loop returns the map from pod numbers to frontends, last one winning, or the first error |
| `FeScaleDown.SeqNumberMapFails` | `pkg/common/utils/mysql/doris.go:89-111` | The map is built if and only if every frontend has a number; otherwise the first one without decides the error |
| `FeScaleDown.SeqNumberMapIff` | `pkg/common/utils/mysql/doris.go:89-111` | The map holds a frontend under a number if and only if it is the last one with that number |
| `FeScaleDown.FrontendNumberIff` | `pkg/common/utils/mysql/doris.go:91-102` | A frontend fails for lack of the template if and only if its name does not contain it; otherwise it has the number that follows the template's first occurrence |
| `FeScaleDown.FindNeedDeletedObservers` | `pkg/common/utils/mysql/doris.go:114-132` | The frontends with the highest numbers, highest first; none when more are asked for than there are |
| `FeScaleDown.FeCluster.DropObserver` | `pkg/controller/sub_controller/fe/prepare_modify.go:131-185` | Which observers are dropped and which error is returned: no connection, unread observers, failed pod list, no number, refused statement |
| `FeScaleDown.FeCluster.PrepareStatefulsetApply` | `pkg/controller/sub_controller/fe/prepare_modify.go:37-72` | Nothing without the StatefulSet; else clamp first, drop only when the clamped count is below the present one, otherwise note a due restart |
| `FeScaleDown.FrontendNumberOfPod` | `pkg/common/utils/mysql/doris.go:91-102` | A pod's host name, or the pod name its address maps to, is read with the pod's ordinal |
| `FeScaleDown.NumberedMembers` | `pkg/common/utils/mysql/doris.go:90-109` | Observers with distinct numbers each end up in the map under their own number |
| `FeScaleDown.DropsExactlyRemovedPods` | `pkg/controller/sub_controller/fe/prepare_modify.go:48-59` | A drop happens only for a count at or above the election number, and then drops exactly the observers of the pods the StatefulSet removes, highest first; covers a retry |

## Left out

- Messages, events and logs, and the record's LastMessage field; time is in whole seconds.
- One reconcile reads the clock at most twice in the model, and sees the same pod list when it detects an action and when it checks for sentinel support; in the code these are separate calls.
- The reconcile's copy of the live StatefulSet is taken to be current; a stale cache shows up only as a conflicting write.
- Encodings: the annotation's JSON and the backend status JSON are faithful, with "cannot be decoded" and "cannot be parsed" as outcomes.
- Spec hashes are the hashed fields themselves, so equal hashes mean equal specs.
- A pod's container statuses are reduced to the BE container's entry, the FE's backend rows to the one that matches a pod (HasPrefix on the host).
- Several fields of the record are grouped into sub-records; the default-value pre-processing and the clearing of the rollingUpdate sub-field before an apply change nothing the model observes.
- Whether the exec calls of a drain succeed (they do not influence the record beyond the sentinel flag), and the sentinel support command itself, which is one boolean answer.
- GracefulActionDelete as a detected action: the handlers and selections cover it, but detection never produces it.
- Go's sort on equal ordinals, which may order them either way; names of one StatefulSet's pods have distinct ordinals, and the theorems on order assume so.
- Edits of the annotation or the strategy by anybody but the operator.
- FE arithmetic is unbounded; the source computes the surplus in 32 bits. An FE host name without the pod template name makes the source panic; in the model it is an error.
- The check of the FE restart time, which is one boolean answer, and the SQL text, TLS and configuration reading in the FE preparation.
- The single-volume storage planner, the emptyDir planner and the parsing of storage_root_path.
- Deletion of the collected claims, and claims of a removed compute group.
- ScaleDownRun.DeletesDownToDesired: assumes that pods at or above the replica count are not recreated and none below it vanishes, and that deletions and count writes succeed.
- The runs of RollingRun leave out reconciles that persist no record; the record and the effects of the others are those of the handler (`StatefulSetReconcile.RollingStepPersists`).
- GenerationRuns.AdvancesOnNewGeneration: speaks of advances before the deadline; after it the code advances without any condition, as `BackendPolls.AdvancesAtFirstEnd` says.
- Generated code, admission webhooks, the command line, pod templates, probes, services and status aggregation: long but flat.
