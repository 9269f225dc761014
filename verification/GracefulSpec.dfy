/** The graceful rollout state machine as functions from a record and one reconcile's readings
    to the new record, the effects, and whether the handler succeeded. */
module GracefulSpec {
  import opened Wrappers
  import opened GracefulTypes
  import PodNames

  const DEFAULT_GRACE_SECONDS := 200
  const WAIT_POD_READY_SECONDS := 2 * DEFAULT_GRACE_SECONDS
  const WAIT_BE_ALIVE_SECONDS := 2 * DEFAULT_GRACE_SECONDS
  const REQUIRED_STABLE_OBSERVATIONS := 2

  datatype Outcome = Outcome(action: Action, events: seq<Event>, ok: bool)

  // ----- reading the world

  datatype PodLookup = FoundPod(pod: Pod) | PodNotFound | PodReadError

  function GetPod(v: View, name: string): PodLookup {
    if v.podReadFails then PodReadError
    else if name in v.pods then FoundPod(v.pods[name])
    else PodNotFound
  }

  function RestartCount(pod: Pod): int { if pod.be.Some? then pod.be.value.restarts else 0 }

  function ContainerID(pod: Pod): string { if pod.be.Some? then pod.be.value.id else "" }

  predicate IsTerminated(pod: Pod) { pod.be.Some? && pod.be.value.terminated }

  function GracePeriod(pod: Pod): int {
    if pod.gracePeriod.Some? then pod.gracePeriod.value else DEFAULT_GRACE_SECONDS
  }

  /** time.After against a deadline that may be the zero time. */
  predicate Past(now: int, deadline: Option<int>) { deadline.None? || now > deadline.value }

  /** Whether the backend reports a shutdown; Failure when its status cannot be read. */
  function IsShutdown(b: Backend): Result<bool, ()> {
    match b.status
    case EmptyStatus => Success(false)
    case UnparseableStatus => Failure(())
    case ParsedStatus(AbsentShutdown, _) => Success(false)
    case ParsedStatus(Shutdown(value), _) => Success(value)
    case ParsedStatus(MistypedShutdown, _) => Failure(())
  }

  function ProcessEpoch(b: Backend): Option<string> {
    match b.status
    case ParsedStatus(_, epoch) => epoch
    case _ => None
  }

  /** The epoch as it is stored: empty when unknown. */
  function EpochText(b: Backend): string {
    match ProcessEpoch(b) case Some(e) => e case None => ""
  }

  // ----- selecting the next pod

  function OutdatedPods(listed: seq<Pod>, target: string): seq<Pod> {
    if listed == [] then []
    else
      var last := listed[|listed| - 1];
      OutdatedPods(listed[..|listed| - 1], target) + if last.revision != target then [last] else []
  }

  function Ordinal(pod: Pod): int { PodNames.OrdinalOf(pod.name) }

  function InsertDescending(pod: Pod, sorted: seq<Pod>): seq<Pod> {
    if sorted == [] || Ordinal(pod) > Ordinal(sorted[0]) then [pod] + sorted
    else [sorted[0]] + InsertDescending(pod, sorted[1..])
  }

  /** sort.Slice by ordinal, highest first. */
  function SortDescending(pods: seq<Pod>): (r: seq<Pod>)
    ensures |r| == |pods|
  {
    if pods == [] then [] else
      var rest := SortDescending(pods[..|pods| - 1]);
      InsertDescendingLength(pods[|pods| - 1], rest);
      InsertDescending(pods[|pods| - 1], rest)
  }

  lemma {:induction false} InsertDescendingLength(pod: Pod, sorted: seq<Pod>)
    ensures |InsertDescending(pod, sorted)| == |sorted| + 1
  {
    if !(sorted == [] || Ordinal(pod) > Ordinal(sorted[0])) {
      InsertDescendingLength(pod, sorted[1..]);
    }
  }

  datatype Selection = Selection(pod: string, ordinal: int)

  function EffectiveTarget(est: Sts, a: Action): string {
    if a.targetRevision == "" then est.updateRevision else a.targetRevision
  }

  /** The outdated pod with the highest ordinal; none when there is none or the list call failed. */
  function SelectOutdated(est: Sts, v: View, a: Action): Option<Selection> {
    if v.listed.None? then None
    else
      var outdated := OutdatedPods(v.listed.value, EffectiveTarget(est, a));
      if outdated == [] then None
      else
        var first := SortDescending(outdated)[0];
        Some(Selection(first.name, PodNames.Int32(Ordinal(first))))
  }

  function HighestOrdinal(est: Sts): Selection {
    Selection(PodNames.PodName(est.name, est.replicas - 1), est.replicas - 1)
  }

  function SelectNextPod(est: Sts, v: View, a: Action): Option<Selection> {
    match a.kind
    case RollingUpdate => SelectOutdated(est, v, a)
    case ScaleDown =>
      if a.desiredReplicas.None? || a.desiredReplicas.value >= est.replicas then None
      else Some(HighestOrdinal(est))
    case Delete => if est.replicas <= 0 then None else Some(HighestOrdinal(est))
    case OtherType => None
  }

  // ----- the record between pods

  function ResetTimer(a: Action): Action { a.(timer := NO_TIMER) }

  /** Everything about the current pod set to zero. */
  function ClearPod(a: Action): Action {
    FreshAction(a.kind, a.targetRevision, a.desiredReplicas).(phase := a.phase)
  }

  function AdvanceToNextPod(a: Action): Action { ClearPod(a).(phase := TriggerDrain) }

  function RefreshTarget(est: Sts, a: Action): Action {
    if a.kind != RollingUpdate || est.updateRevision == "" then a
    else a.(targetRevision := est.updateRevision)
  }

  // ----- the handlers

  /** An empty target after the refresh means the StatefulSet has no update revision yet: wait for one. */
  function HandleTriggerDrain(est: Sts, v: View, a0: Action): Outcome {
    var a := RefreshTarget(est, a0);
    if a.currentPod != "" then DrainCurrentPod(v, a)
    else if a.kind == RollingUpdate && a.targetRevision == "" then Outcome(a, [], true)
    else
      match SelectNextPod(est, v, a)
      case None => Outcome(a.(phase := Done), [], true)
      case Some(s) =>
        DrainCurrentPod(v, a.(currentPod := s.pod, currentOrdinal := s.ordinal, drain := a.drain.(triggered := false)))
  }

  /** The record once the current pod's generation and its backend's generation are captured. */
  function CaptureGeneration(v: View, pod: Pod, a: Action): Action {
    var known := a.currentPod in v.backends;
    var startTime := if known then v.backends[a.currentPod].startTime else "";
    var epoch :=
      if !known then ""
      else match ProcessEpoch(v.backends[a.currentPod])
           case Some(e) => e
           case None => a.initial.backendEpoch;
    a.(initial := Initial(RestartCount(pod), pod.uid, ContainerID(pod), startTime, epoch),
       drain := Drain(a.drain.triggered, false, false),
       replacement := NO_REPLACEMENT,
       stableObservations := 0,
       timer := Timer(Some(v.now), Some(v.now + GracePeriod(pod))))
  }

  function DrainCurrentPod(v: View, a: Action): Outcome {
    match GetPod(v, a.currentPod)
    case PodReadError => Outcome(a, [], false)
    case PodNotFound =>
      Outcome(if a.kind == RollingUpdate then a.(phase := WaitPodReady) else AdvanceToNextPod(a), [], true)
    case FoundPod(pod) =>
      var a := CaptureGeneration(v, pod, a);
      if a.drain.triggered then Outcome(a.(phase := WaitDrain), [], true)
      else
        Outcome(a.(drain := Drain(true, v.sentinelWrites, false), phase := WaitDrain),
                [DrainStarted(a.kind, a.currentPod, a.currentOrdinal, v.now, GracePeriod(pod), RestartCount(pod))],
                true)
  }

  function DrainEnd(v: View, pod: Pod, a: Action): Event {
    DrainEnded(a.currentPod, IsTerminated(pod), RestartCount(pod), v.now)
  }

  function HandleWaitDrain(v: View, a: Action): Outcome {
    match GetPod(v, a.currentPod)
    case PodReadError => Outcome(a, [], false)
    case PodNotFound =>
      Outcome(if a.kind == RollingUpdate then ResetTimer(a).(phase := WaitPodReady) else AdvanceToNextPod(a), [], true)
    case FoundPod(pod) =>
      if IsTerminated(pod) then
        Outcome(a.(phase := DeletePod), [DrainEnd(v, pod, a)], true)
      else if RestartCount(pod) > a.initial.restartCount then
        Outcome(a.(drain := a.drain.(restartAnomaly := true), phase := DeletePod), [DrainEnd(v, pod, a)], true)
      else if Past(v.now, a.timer.deadlineAt) then
        Outcome(a.(phase := DeletePod), [DrainEnd(v, pod, a)], true)
      else Outcome(a, [], true)
  }

  /** The replica write after a deletion: nothing when the count is already right or a call fails. */
  function UpdateReplicas(v: View, replicas: int): seq<Event> {
    if v.liveReplicas.None? || v.liveReplicas.value == replicas || v.replicasWriteFails then []
    else [ReplicasWritten(replicas)]
  }

  function AfterPodDeleted(v: View, a: Action): Outcome {
    match a.kind
    case RollingUpdate => Outcome(ResetTimer(a).(phase := WaitPodReady), [], true)
    case ScaleDown => Outcome(AdvanceToNextPod(a), UpdateReplicas(v, a.currentOrdinal), true)
    case Delete => Outcome(AdvanceToNextPod(a), UpdateReplicas(v, a.currentOrdinal), true)
    case OtherType => Outcome(a, [], true)
  }

  function HandleDeletePod(v: View, a: Action): Outcome {
    match GetPod(v, a.currentPod)
    case PodReadError => Outcome(a, [], false)
    case PodNotFound => AfterPodDeleted(v, a)
    case FoundPod(_) =>
      var issued := DeleteIssued(a.kind, a.currentPod, a.currentOrdinal, v.deleteOutcome);
      if v.deleteOutcome == Refused then Outcome(a, [issued], false)
      else
        var after := AfterPodDeleted(v, a);
        after.(events := [issued] + after.events)
  }

  function StartTimer(now: int, seconds: int, a: Action): Action {
    a.(timer := Timer(Some(now), Some(now + seconds)))
  }

  /** The waiting handlers start their timer on the first call. */
  function EnsureTimer(now: int, seconds: int, a: Action): Action {
    if a.timer.deadlineAt.None? then StartTimer(now, seconds, a) else a
  }

  function HandleWaitPodReady(v: View, a0: Action): Outcome {
    var a := EnsureTimer(v.now, WAIT_POD_READY_SECONDS, a0);
    var waiting := if Past(v.later, a.timer.deadlineAt) then StartTimer(v.later, WAIT_POD_READY_SECONDS, a) else a;
    match GetPod(v, a.currentPod)
    case PodReadError => Outcome(a, [], false)
    case PodNotFound => Outcome(waiting, [], true)
    case FoundPod(pod) =>
      if pod.ready then
        Outcome(ResetTimer(a).(replacement := a.replacement.(podUID := pod.uid, containerID := ContainerID(pod)), phase := WaitBEAlive),
                [ReadySeen(a.currentPod)], true)
      else Outcome(waiting, [], true)
  }

  /** The backend shows a generation other than the drained one, alive and not shutting down. */
  predicate AcceptsBackend(a: Action, b: Backend) {
    && b.alive
    && IsShutdown(b) == Success(false)
    && b.startTime != "" && b.startTime != a.initial.backendStartTime
    && (a.initial.backendEpoch != "" && ProcessEpoch(b).Some? ==> ProcessEpoch(b).value != a.initial.backendEpoch)
  }

  function CountObservation(b: Backend, a: Action): Action {
    if a.replacement.backendStartTime != b.startTime || a.replacement.backendEpoch != EpochText(b) then
      a.(replacement := a.replacement.(backendStartTime := b.startTime, backendEpoch := EpochText(b)),
         stableObservations := 1)
    else a.(stableObservations := a.stableObservations + 1)
  }

  function HandleWaitBEAlive(v: View, a0: Action): Outcome {
    var a := EnsureTimer(v.now, WAIT_BE_ALIVE_SECONDS, a0);
    if a.currentPod in v.backends && AcceptsBackend(a, v.backends[a.currentPod]) then
      var counted := CountObservation(v.backends[a.currentPod], a);
      Outcome(if counted.stableObservations >= REQUIRED_STABLE_OBSERVATIONS
              then AdvanceToNextPod(counted) else counted, [], true)
    else Outcome(if Past(v.later, a.timer.deadlineAt) then AdvanceToNextPod(a) else a, [], true)
  }

  function RunStateMachine(est: Sts, v: View, a: Action): Outcome {
    match a.phase
    case TriggerDrain => HandleTriggerDrain(est, v, a)
    case WaitDrain => HandleWaitDrain(v, a)
    case DeletePod => HandleDeletePod(v, a)
    case WaitPodReady => HandleWaitPodReady(v, a)
    case WaitBEAlive => HandleWaitBEAlive(v, a)
    case Done => Outcome(a, [], true)
    case Failed => Outcome(a, [], true)
    case OtherPhase => Outcome(a, [], false)
  }
}
