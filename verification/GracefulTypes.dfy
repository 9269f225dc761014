/** The entities of the graceful rollout: the persisted record, the StatefulSet that carries it,
    and everything one reconcile reads from Kubernetes, from the FE and from the clock. */
module GracefulTypes {
  import opened Wrappers

  // ----- the persisted record

  datatype ActionType = RollingUpdate | ScaleDown | Delete | OtherType

  datatype Phase =
    | TriggerDrain | WaitDrain | DeletePod | WaitPodReady | WaitBEAlive | Done | Failed | OtherPhase

  /** When the current wait began and when it times out; a zero time is None. */
  datatype Timer = Timer(startedAt: Option<int>, deadlineAt: Option<int>)

  const NO_TIMER := Timer(None, None)

  datatype Drain = Drain(triggered: bool, sentinelWritten: bool, restartAnomaly: bool)

  const NO_DRAIN := Drain(false, false, false)

  /** The pod and backend generation being drained. */
  datatype Initial = Initial(
    restartCount: int,
    podUID: string,
    containerID: string,
    backendStartTime: string,
    backendEpoch: string)

  const NO_INITIAL := Initial(0, "", "", "", "")

  /** The generation seen to replace it. */
  datatype Replacement = Replacement(
    podUID: string,
    containerID: string,
    backendStartTime: string,
    backendEpoch: string)

  const NO_REPLACEMENT := Replacement("", "", "", "")

  /** The graceful action as it is stored in the StatefulSet annotation. */
  datatype Action = Action(
    kind: ActionType,
    phase: Phase,
    currentPod: string,
    currentOrdinal: int,
    targetRevision: string,
    desiredReplicas: Option<int>,
    timer: Timer,
    drain: Drain,
    initial: Initial,
    replacement: Replacement,
    stableObservations: int)

  /** A newly detected action: everything that concerns a single pod is zero. */
  function FreshAction(kind: ActionType, targetRevision: string, desiredReplicas: Option<int>): Action {
    Action(kind, TriggerDrain, "", 0, targetRevision, desiredReplicas, NO_TIMER, NO_DRAIN, NO_INITIAL, NO_REPLACEMENT, 0)
  }

  // ----- the StatefulSet

  datatype Strategy = OnDelete | RollingStrategy

  datatype Annotation = NoAnnotation | Undecodable | Encoded(action: Action)

  /** What the spec hash covers: the pod template and the other hashed fields, and the replica count. */
  datatype SpecHash = SpecHash(template: int, replicas: int)

  datatype Sts = Sts(
    name: string,
    replicas: int,
    template: int,
    specHash: Option<SpecHash>,
    strategy: Strategy,
    annotation: Annotation,
    updateRevision: string,
    currentRevision: string)

  // ----- what a reconcile reads

  /** The BE main container's entry in the pod status. */
  datatype Container = Container(id: string, restarts: int, terminated: bool)

  type ObjectName = s: string | s != "" witness "x"

  datatype Pod = Pod(
    name: ObjectName,
    uid: string,
    revision: string,
    ready: bool,
    be: Option<Container>,
    gracePeriod: Option<int>)

  /** The isShutdown field of a backend's status JSON. */
  datatype ShutdownField = AbsentShutdown | Shutdown(value: bool) | MistypedShutdown

  datatype BackendStatus =
    | EmptyStatus
    | UnparseableStatus
    | ParsedStatus(shutdown: ShutdownField, epoch: Option<string>)

  /** A row of the FE's backend list; startTime is trimmed and empty when unknown. */
  datatype Backend = Backend(alive: bool, startTime: string, status: BackendStatus)

  datatype DeleteOutcome = Accepted | AlreadyGone | Refused

  /** The answers one reconcile gets. `now` and `later` are its first and its last clock reading. The pod
      list is fetched up to three times: to detect an action, to select a pod, and before finalizing;
      None is a failed list. */
  datatype View = View(
    now: int,
    later: int,
    detectList: Option<seq<Pod>>,
    listed: Option<seq<Pod>>,
    finalList: Option<seq<Pod>>,
    pods: map<string, Pod>,
    podReadFails: bool,
    deleteOutcome: DeleteOutcome,
    backends: map<string, Backend>,
    sentinelSupported: bool,
    sentinelWrites: bool,
    liveReplicas: Option<int>,
    replicasWriteFails: bool,
    finalizeFails: bool)

  // ----- what a reconcile does to the outside

  datatype Event =
    | DrainStarted(kind: ActionType, pod: string, ordinal: int, at: int, grace: int, restarts: int)
    | DrainEnded(pod: string, terminated: bool, restartsSeen: int, endedAt: int)
    | DeleteIssued(kind: ActionType, pod: string, ordinal: int, outcome: DeleteOutcome)
    | ReadySeen(pod: string)
    | ReplicasWritten(replicas: int)
}
