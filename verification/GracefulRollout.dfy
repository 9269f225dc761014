/** One reconcile of the graceful rollout: detect, pre-empt, run one handler, and prepare the
    StatefulSet that is going to be applied. */
module GracefulRollout {
  import opened Wrappers
  import opened GracefulTypes
  import opened ScaleIn
  import Spec = GracefulSpec
  import Actions = GracefulActions

  // ----- as functions

  /** The stored spec hash, or the hash of the spec when none is stored. */
  function HashOf(s: Sts): SpecHash {
    if s.specHash.Some? then s.specHash.value else SpecHash(s.template, s.replicas)
  }

  predicate SpecChanged(st: Sts, est: Sts) { HashOf(st) != HashOf(est) }

  function Priority(kind: ActionType): int {
    match kind case Delete => 3 case ScaleDown => 2 case RollingUpdate => 1 case OtherType => 0
  }

  function GracefulPhase(kind: ActionType, phase: GroupPhase): GroupPhase {
    match kind
    case RollingUpdate => GracefulRolling
    case ScaleDown => GracefulScaling
    case Delete => GracefulDeleting
    case OtherType => phase
  }

  function RecoverAction(est: Sts): Action { FreshAction(RollingUpdate, est.updateRevision, None) }

  function Detect(st: Sts, est: Sts, v: View): Option<Action> {
    if st.replicas < est.replicas then Some(FreshAction(ScaleDown, "", Some(st.replicas)))
    else if SpecChanged(st, est) then Some(FreshAction(RollingUpdate, "", None))
    else if est.updateRevision != "" && est.updateRevision != est.currentRevision
            && Spec.SelectOutdated(est, v.(listed := v.detectList), RecoverAction(est)).Some? then Some(RecoverAction(est))
    else None
  }

  predicate SentinelSupported(est: Sts, v: View, a: Action) {
    Spec.SelectNextPod(est, v.(listed := v.detectList), a).None? || v.sentinelSupported
  }

  function Preempt(stored: Action, detected: Option<Action>): Action {
    if detected.Some? && detected.value.kind != stored.kind && Priority(detected.value.kind) > Priority(stored.kind)
    then detected.value
    else stored
  }

  function PrepareGraceful(st: Sts, est: Sts, kind: ActionType): Sts {
    st.(strategy := OnDelete, replicas := if kind == ScaleDown || kind == Delete then est.replicas else st.replicas)
  }

  predicate ShouldFinalize(est: Sts, v: View, a: Action) {
    a.kind == RollingUpdate ==> Spec.SelectOutdated(est, v.(listed := v.finalList), a).None?
  }

  /** `cleared` says that the live annotation was removed. */
  datatype Reconciled = Reconciled(st: Sts, skipApply: bool, ok: bool, events: seq<Event>, cleared: bool, phase: GroupPhase)

  function StartAction(st: Sts, est: Sts, v: View, phase: GroupPhase, detected: Action): Reconciled {
    if !SentinelSupported(est, v, detected) then Reconciled(st, false, true, [], false, phase)
    else
      Reconciled(PrepareGraceful(st, est, detected.kind).(annotation := Encoded(detected)), true, true, [], false,
                 GracefulPhase(detected.kind, phase))
  }

  /** The handler's outcome for the acting record. */
  function Advance(st: Sts, est: Sts, v: View, stored: Action): Spec.Outcome {
    Spec.RunStateMachine(est, v, Spec.RefreshTarget(est, Preempt(stored, Detect(st, est, v))))
  }

  function ContinueAction(st: Sts, est: Sts, v: View, phase: GroupPhase, stored: Action): Reconciled {
    var phase := GracefulPhase(Preempt(stored, Detect(st, est, v)).kind, phase);
    var o := Advance(st, est, v, stored);
    if !o.ok then Reconciled(st, true, false, o.events, false, phase)
    else if o.action.phase == Done && ShouldFinalize(est, v, o.action) then
      if v.finalizeFails then Reconciled(st, true, false, o.events, false, Reconciling)
      else Reconciled(st.(strategy := OnDelete, annotation := NoAnnotation), false, true, o.events, true, Reconciling)
    else
      Reconciled(PrepareGraceful(st, est, o.action.kind).(annotation := Encoded(o.action)), true, true, o.events, false, phase)
  }

  function GracefulReconcile(st: Sts, est: Sts, v: View, phase: GroupPhase): Reconciled {
    match est.annotation
    case Undecodable => Reconciled(st, true, false, [], false, phase)
    case NoAnnotation =>
      (match Detect(st, est, v)
       case None => Reconciled(st, false, true, [], false, phase)
       case Some(detected) => StartAction(st, est, v, phase, detected))
    case Encoded(stored) => ContinueAction(st, est, v, phase, stored)
  }

  // ----- in place

  /** The desired StatefulSet a reconcile edits before it is applied. */
  class StatefulSet {
    var name: string
    var replicas: int
    var template: int
    var specHash: Option<SpecHash>
    var strategy: Strategy
    var annotation: Annotation
    var updateRevision: string
    var currentRevision: string

    function Value(): Sts
      reads this
    {
      Sts(name, replicas, template, specHash, strategy, annotation, updateRevision, currentRevision)
    }

    constructor (s: Sts)
      ensures Value() == s
    {
      name, replicas, template, specHash := s.name, s.replicas, s.template, s.specHash;
      strategy, annotation := s.strategy, s.annotation;
      updateRevision, currentRevision := s.updateRevision, s.currentRevision;
    }

    method EnsureOnDeleteStrategy()
      modifies this
      ensures Value() == old(Value()).(strategy := OnDelete)
    {
      strategy := OnDelete;
    }

    method PrepareGracefulStatefulSet(est: Sts, kind: ActionType)
      modifies this
      ensures Value() == PrepareGraceful(old(Value()), est, kind)
    {
      EnsureOnDeleteStrategy();
      if kind == ScaleDown || kind == Delete { replicas := est.replicas; }
    }

    method SetGracefulAction(a: Action)
      modifies this
      ensures Value() == old(Value()).(annotation := Encoded(a))
    {
      annotation := Encoded(a);
    }

    /** Remove the annotation from the live object, then from this one. */
    method FinalizeGracefulAction(v: View) returns (cleared: bool)
      modifies this
      ensures cleared == !v.finalizeFails
      ensures Value() == if cleared then old(Value()).(strategy := OnDelete, annotation := NoAnnotation) else old(Value())
    {
      if v.finalizeFails { return false; }
      EnsureOnDeleteStrategy();
      annotation := NoAnnotation;
      return true;
    }
  }

  method DetectGracefulAction(st: Sts, est: Sts, v: View) returns (action: Option<Action>)
    ensures action == Detect(st, est, v)
  {
    if st.replicas < est.replicas { return Some(FreshAction(ScaleDown, "", Some(st.replicas))); }
    if SpecChanged(st, est) { return Some(FreshAction(RollingUpdate, "", None)); }
    if est.updateRevision != "" && est.updateRevision != est.currentRevision {
      var recover := RecoverAction(est);
      var found := Actions.SelectNextRollingUpdatePod(est, v.(listed := v.detectList), recover);
      if found.Some? { return Some(recover); }
    }
    return None;
  }

  method ShouldFinalizeGracefulAction(est: Sts, v: View, a: Action) returns (finished: bool)
    ensures finished == ShouldFinalize(est, v, a)
  {
    if a.kind == RollingUpdate {
      var found := Actions.SelectNextRollingUpdatePod(est, v.(listed := v.finalList), a);
      return found.None?;
    }
    return true;
  }

  method GracefulRolloutReconcile(st: StatefulSet, est: Sts, v: View, status: ComputeGroupStatus)
    returns (skipApply: bool, ok: bool, events: seq<Event>, cleared: bool)
    modifies st, status
    ensures Reconciled(st.Value(), skipApply, ok, events, cleared, status.phase)
         == GracefulReconcile(old(st.Value()), est, v, old(status.phase))
  {
    events, cleared := [], false;
    var action := DetectGracefulAction(st.Value(), est, v);
    if est.annotation == Undecodable { return true, false, events, cleared; }
    if est.annotation == NoAnnotation {
      if action == None { return false, true, events, cleared; }
      if !SentinelSupported(est, v, action.value) { return false, true, events, cleared; }
      status.phase := GracefulPhase(action.value.kind, status.phase);
      st.PrepareGracefulStatefulSet(est, action.value.kind);
      st.SetGracefulAction(action.value);
      return true, true, events, cleared;
    }
    var acting := Preempt(est.annotation.action, action);
    var ga := new Actions.GracefulAction(acting);
    status.phase := GracefulPhase(ga.kind, status.phase);
    ga.RefreshRollingUpdateTargetRevision(est);
    events, ok := ga.RunGracefulStateMachine(est, v);
    if !ok { return true, false, events, cleared; }
    if ga.phase == Done {
      var finished := ShouldFinalizeGracefulAction(est, v, ga.Value());
      if finished {
        status.phase := Reconciling;
        cleared := st.FinalizeGracefulAction(v);
        return !cleared, cleared, events, cleared;
      }
    }
    st.PrepareGracefulStatefulSet(est, ga.kind);
    st.SetGracefulAction(ga.Value());
    return true, true, events, cleared;
  }
}
