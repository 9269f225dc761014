/** A compute group's whole StatefulSet reconcile: the decommission gate, the graceful step, and the
    apply that may be skipped, land, conflict or fail. */
module StatefulSetReconcile {
  import opened Wrappers
  import opened GracefulTypes
  import opened GracefulRollout
  import opened GracefulRuns
  import opened ScaleIn
  import Decommission
  import Spec = GracefulSpec
  import RollingRun
  import PodNames

  // ----- applying a StatefulSet

  /** How an apply ends; Unread is a failed read of the live object at its start. */
  datatype ApplyAnswer = Landed | Conflict | ApplyFailed | Unread

  function Hashed(st: Sts): Sts { st.(specHash := Some(HashOf(st))) }

  /** Same business hash, same strategy type, same annotation: nothing to write. */
  predicate ApplyEqual(st: Sts, live: Sts) {
    HashOf(st) == HashOf(live) && st.strategy == live.strategy && st.annotation == live.annotation
  }

  /** A merge patch: an annotation that st does not carry stays on the live object. */
  function Merge(live: Sts, st: Sts): Sts {
    live.(replicas := st.replicas, template := st.template, specHash := st.specHash, strategy := st.strategy,
          annotation := if st.annotation == NoAnnotation then live.annotation else st.annotation)
  }

  function Apply(live: Option<Sts>, st: Sts, answer: ApplyAnswer): (Option<Sts>, bool) {
    if answer == Unread then (live, false)
    else
      match live
      case None =>
        if answer == Landed then (Some(Hashed(st).(updateRevision := "", currentRevision := "")), true) else (None, false)
      case Some(l) =>
        if ApplyEqual(st, l) then (live, true)
        else if answer == Landed then (Some(Merge(l, Hashed(st))), true)
        else (live, answer == Conflict)
  }

  class ApiServer {
    var live: Option<Sts>

    constructor (live: Option<Sts>)
      ensures this.live == live
    {
      this.live := live;
    }
  }

  method ApplyStatefulSet(api: ApiServer, st: StatefulSet, answer: ApplyAnswer) returns (ok: bool)
    modifies api, st
    ensures (api.live, ok) == Apply(old(api.live), old(st.Value()), answer)
    ensures st.Value() == if answer == Unread then old(st.Value()) else Hashed(old(st.Value()))
  {
    if answer == Unread { return false; }
    var equal := api.live.Some? && ApplyEqual(st.Value(), api.live.value);
    st.specHash := Some(HashOf(st.Value()));
    if api.live.None? {
      if answer == Landed { api.live := Some(st.Value().(updateRevision := "", currentRevision := "")); }
      return answer == Landed;
    }
    if equal { return true; }
    if answer == Landed {
      api.live := Some(Merge(api.live.value, st.Value()));
      return true;
    }
    return answer == Conflict;
  }

  // ----- the reconcile

  /** The group's settings and everything one reconcile is answered. */
  datatype Env = Env(
    readFails: bool,
    decommission: bool,
    execConfigured: bool,
    templatesEqual: bool,
    fe: FeView,
    v: View,
    answer: ApplyAnswer)

  /** `applied` is the StatefulSet that reached the apply, if any did. */
  datatype Reconcile = Reconcile(
    live: Option<Sts>,
    ok: bool,
    phase: GroupPhase,
    commands: seq<FeCommand>,
    verdict: Option<Decommission.Verdict>,
    events: seq<Event>,
    applied: Option<Sts>)

  /** The graceful step's own writes to the live object. */
  function AfterGraceful(live: Sts, r: Reconciled): Sts {
    var written := if r.events != [] && r.events[|r.events| - 1].ReplicasWritten?
                   then live.(replicas := r.events[|r.events| - 1].replicas) else live;
    if r.cleared then written.(annotation := NoAnnotation) else written
  }

  function GracefulStep(env: Env, st: Sts, est: Sts, phase: GroupPhase): Reconciled {
    if env.execConfigured then GracefulReconcile(st, est, env.v, phase)
    else Reconciled(st, false, true, [], false, phase)
  }

  function ToApply(r: Reconciled): Sts {
    if r.skipApply then r.st.(strategy := OnDelete) else r.st
  }

  function ReconcileExisting(env: Env, st: Sts, est: Sts, phase: GroupPhase): Reconcile {
    if !env.templatesEqual then Reconcile(Some(est), false, phase, [], None, [], None)
    else
      var pre := PreApply(env.decommission, env.fe, st.replicas, est.replicas, phase);
      if !pre.ok || pre.phase == DecommissionRunning then
        Reconcile(Some(est), pre.ok, pre.phase, pre.commands, pre.verdict, [], None)
      else
        var r := GracefulStep(env, st, est, pre.phase);
        var (live, ok) := Apply(Some(AfterGraceful(est, r)), ToApply(r), env.answer);
        Reconcile(live, ok, r.phase, pre.commands, pre.verdict, r.events, Some(ToApply(r)))
  }

  function ReconcileSts(env: Env, st: Sts, live: Option<Sts>, phase: GroupPhase): Reconcile {
    if env.readFails then Reconcile(live, false, phase, [], None, [], None)
    else
      match live
      case None =>
        var (created, ok) := Apply(None, st, env.answer);
        Reconcile(created, ok, phase, [], None, [], Some(st))
      case Some(est) => ReconcileExisting(env, st, est, phase)
  }

  method ReconcileStatefulset(api: ApiServer, status: ComputeGroupStatus, st: StatefulSet, env: Env)
    returns (ok: bool, commands: seq<FeCommand>, verdict: Option<Decommission.Verdict>, events: seq<Event>, applied: Option<Sts>)
    modifies api, status, st
    ensures Reconcile(api.live, ok, status.phase, commands, verdict, events, applied)
         == ReconcileSts(env, old(st.Value()), old(api.live), old(status.phase))
  {
    hide GracefulReconcile, PreApply, Apply, Hashed;
    commands, verdict, events, applied := [], None, [], None;
    if env.readFails { ok := false; return; }
    if api.live.None? {
      applied := Some(st.Value());
      ok := ApplyStatefulSet(api, st, env.answer);
      return;
    }
    var est := api.live.value;
    if !env.templatesEqual { ok := false; return; }
    commands, ok, verdict := PreApplyStatefulSet(status, env.decommission, env.fe, st.replicas, est.replicas);
    if !ok { return; }
    if status.phase == DecommissionRunning { return; }
    if env.execConfigured {
      var skipApply, gracefulOk, cleared;
      skipApply, gracefulOk, events, cleared := GracefulRolloutReconcile(st, est, env.v, status);
      if events != [] && events[|events| - 1].ReplicasWritten? {
        api.live := Some(api.live.value.(replicas := events[|events| - 1].replicas));
      }
      if cleared { api.live := Some(api.live.value.(annotation := NoAnnotation)); }
      if skipApply { st.EnsureOnDeleteStrategy(); }
    }
    applied := Some(st.Value());
    ok := ApplyStatefulSet(api, st, env.answer);
  }

  // ----- an annotated StatefulSet is OnDelete

  /** While the live object carries a graceful action, Kubernetes must not replace pods on its own. */
  predicate OnDeleteWhileAnnotated(live: Option<Sts>) {
    live.Some? && live.value.annotation != NoAnnotation ==> live.value.strategy == OnDelete
  }

  lemma GracefulStepOnDelete(st: Sts, est: Sts, v: View, phase: GroupPhase)
    requires st.annotation == NoAnnotation
    ensures var r := GracefulReconcile(st, est, v, phase);
            && (r.st.annotation != NoAnnotation ==> r.skipApply)
            && (est.annotation != NoAnnotation ==> r.skipApply || r.cleared)
            && (r.cleared ==> r.st.annotation == NoAnnotation)
  {
    hide Spec.RunStateMachine, Spec.SelectOutdated, Spec.SelectNextPod, Detect, Acting, ContinueAction;
    var i := Input(st, est, v, true);
    if est.annotation.Encoded? {
      hide GracefulReconcile;
      PhaseIsCarried(i, phase);
      OutcomeIsHandlers(i);
    }
  }

  lemma ExistingKeepsOnDelete(env: Env, st: Sts, est: Sts, phase: GroupPhase)
    requires env.execConfigured && st.annotation == NoAnnotation && OnDeleteWhileAnnotated(Some(est))
    ensures OnDeleteWhileAnnotated(ReconcileExisting(env, st, est, phase).live)
  {
    hide GracefulReconcile, PreApply;
    GracefulStepOnDelete(st, est, env.v, PreApply(env.decommission, env.fe, st.replicas, est.replicas, phase).phase);
  }

  /** One reconcile keeps the invariant, whatever it reads and whether its writes land, conflict or fail. */
  lemma ReconcileKeepsOnDelete(env: Env, st: Sts, live: Option<Sts>, phase: GroupPhase)
    requires env.execConfigured && st.annotation == NoAnnotation && OnDeleteWhileAnnotated(live)
    ensures OnDeleteWhileAnnotated(ReconcileSts(env, st, live, phase).live)
  {
    hide ReconcileExisting;
    if live.Some? {
      ExistingKeepsOnDelete(env, st, live.value, phase);
    }
  }

  /** The condition on the exec configuration is needed: an annotated StatefulSet whose reconcile
      reaches a landing apply stays OnDelete exactly when the operator has an exec configuration. */
  lemma OnDeleteNeedsExecConfig(env: Env, st: Sts, est: Sts, phase: GroupPhase)
    requires st.annotation == NoAnnotation && st.strategy == RollingStrategy
    requires est.annotation != NoAnnotation && est.strategy == OnDelete
    requires ReconcileExisting(env, st, est, phase).applied.Some? && env.answer == Landed
    ensures OnDeleteWhileAnnotated(ReconcileExisting(env, st, est, phase).live) <==> env.execConfigured
  {
    hide GracefulReconcile, PreApply;
    if env.execConfigured {
      ExistingKeepsOnDelete(env, st, est, phase);
    }
  }

  datatype LiveStep =
    | ReconcileOnce(env: Env, st: Sts, phase: GroupPhase)
    | StatusChange(replicas: int, updateRevision: string, currentRevision: string)

  function Live(live: Option<Sts>, step: LiveStep): Option<Sts> {
    match step
    case ReconcileOnce(env, st, phase) => ReconcileSts(env, st, live, phase).live
    case StatusChange(replicas, update, current) =>
      if live.None? then None
      else Some(live.value.(replicas := replicas, updateRevision := update, currentRevision := current))
  }

  function LiveAfter(live: Option<Sts>, steps: seq<LiveStep>): Option<Sts> {
    if steps == [] then live else Live(LiveAfter(live, steps[..|steps| - 1]), steps[|steps| - 1])
  }

  /** Over every run of an operator with an exec configuration, a StatefulSet that carries a graceful
      action has strategy OnDelete. */
  lemma {:induction false} AnnotatedIsOnDelete(live: Option<Sts>, steps: seq<LiveStep>)
    requires OnDeleteWhileAnnotated(live)
    requires forall s | s in steps && s.ReconcileOnce? :: s.env.execConfigured && s.st.annotation == NoAnnotation
    ensures OnDeleteWhileAnnotated(LiveAfter(live, steps))
  {
    hide ReconcileSts;
    if steps != [] {
      var last := steps[|steps| - 1];
      AnnotatedIsOnDelete(live, steps[..|steps| - 1]);
      if last.ReconcileOnce? {
        ReconcileKeepsOnDelete(last.env, last.st, LiveAfter(live, steps[..|steps| - 1]), last.phase);
      }
    }
  }

  // ----- the decommission gate

  predicate StoresScaleDown(a: Annotation) { a.Encoded? && a.action.kind == ScaleDown }

  lemma PreApplyGate(fe: FeView, desired: int, existing: int, phase: GroupPhase)
    requires desired < existing
    ensures var pre := PreApply(true, fe, desired, existing, phase);
            pre.ok && pre.phase != DecommissionRunning ==> pre.verdict == Some(Decommission.Decommissioned)
  {
    hide Decommission.ProgressCheck;
  }

  lemma StartsNoScaleDown(i: Input)
    requires i.st.annotation == NoAnnotation && i.st.replicas >= i.est.replicas && !i.est.annotation.Encoded?
    ensures Outcome(i).st.replicas >= i.est.replicas && !StoresScaleDown(Outcome(i).st.annotation) && Outcome(i).events == []
  {
    hide Spec.SelectOutdated, SentinelSupported;
  }

  lemma NoScaleDownAbove(st: Sts, est: Sts, v: View, phase: GroupPhase)
    requires st.annotation == NoAnnotation && st.replicas >= est.replicas
    requires est.annotation.Encoded? ==> WellFormed(est.annotation.action)
    ensures var r := GracefulReconcile(st, est, v, phase);
            && r.st.replicas >= est.replicas
            && (!StoresScaleDown(est.annotation) ==>
                  && !StoresScaleDown(r.st.annotation)
                  && forall e | e in r.events :: e.DrainStarted? || e.DeleteIssued? ==> e.kind != ScaleDown)
  {
    hide Spec.RunStateMachine, Acting, GracefulReconcile;
    var i := Input(st, est, v, true);
    PhaseIsCarried(i, phase);
    if est.annotation.Encoded? {
      var a := Acting(i, est.annotation.action);
      ActingFacts(i, est.annotation.action);
      HandlerHasShape(est, v, a);
      HandlerKeepsWellFormed(est, v, a);
      HandlerKeepsGoal(est, v, a);
      OutcomeIsHandlers(i);
    } else {
      StartsNoScaleDown(i);
    }
  }

  /** With decommissioning enabled, a reconcile that applies fewer replicas than the StatefulSet has,
      starts a graceful scale-down, or drains or deletes a pod for one that was not already running,
      got the verdict Decommissioned from its own progress check. */
  lemma GateNeedsDecommissioned(env: Env, st: Sts, est: Sts, phase: GroupPhase)
    requires env.decommission && st.annotation == NoAnnotation
    requires est.annotation.Encoded? ==> WellFormed(est.annotation.action)
    ensures var out := ReconcileExisting(env, st, est, phase);
            && (out.applied.Some? && out.applied.value.replicas < est.replicas ==>
                  out.verdict == Some(Decommission.Decommissioned))
            && (!StoresScaleDown(est.annotation) && out.applied.Some? && StoresScaleDown(out.applied.value.annotation) ==>
                  out.verdict == Some(Decommission.Decommissioned))
            && (!StoresScaleDown(est.annotation)
                && (exists e :: e in out.events && (e.DrainStarted? || e.DeleteIssued?) && e.kind == ScaleDown) ==>
                  out.verdict == Some(Decommission.Decommissioned))
  {
    hide GracefulReconcile, PreApply;
    if st.replicas < est.replicas {
      PreApplyGate(env.fe, st.replicas, est.replicas, phase);
    } else {
      NoScaleDownAbove(st, est, env.v, PreApply(env.decommission, env.fe, st.replicas, est.replicas, phase).phase);
    }
  }

  // ----- finishing a rolling update

  /** When the pod list before finalizing succeeds, a rolling update is cleared only if every listed
      pod carries the StatefulSet's update revision. */
  lemma ClearedOnlyWhenUpdated(st: Sts, est: Sts, v: View, phase: GroupPhase)
    requires est.annotation.Encoded? && WellFormed(est.annotation.action) && est.updateRevision != ""
    requires Acting(Input(st, est, v, true), est.annotation.action).kind == RollingUpdate
    requires GracefulReconcile(st, est, v, phase).cleared && v.finalList.Some?
    ensures forall p | p in v.finalList.value :: p.revision == est.updateRevision
    ensures st.replicas >= est.replicas
  {
    hide Spec.SelectOutdated, Spec.SelectNextPod;
    var stored := est.annotation.action;
    var a := Acting(Input(st, est, v, true), stored);
    ActingFacts(Input(st, est, v, true), stored);
    assert a.targetRevision == est.updateRevision;
    var o := Spec.RunStateMachine(est, v, a);
    HandlerKeepsGoal(est, v, a);
    var pod := RollingRun.SelectsHighestOutdated(est, v.(listed := v.finalList), o.action);
  }

  /** A rolling update that was cleared, with its apply landing, is not started again: the next
      reconcile of the same spec on the same pods detects nothing, even while the StatefulSet's
      current revision still differs from its update revision. */
  lemma ClearedStaysQuiet(env: Env, st: Sts, est: Sts, phase: GroupPhase, next: View)
    requires env.execConfigured && env.answer == Landed && st.annotation == NoAnnotation && st.specHash == None
    requires est.annotation.Encoded? && WellFormed(est.annotation.action) && est.updateRevision != ""
    requires Acting(Input(st, est, env.v, true), est.annotation.action).kind == RollingUpdate
    requires var out := ReconcileExisting(env, st, est, phase);
             out.applied.Some? && out.live.Some? && out.live.value.annotation == NoAnnotation
    requires env.v.finalList.Some? && next.detectList == env.v.finalList
    ensures var out := ReconcileExisting(env, st, est, phase);
            && Detect(st, out.live.value, next) == None
            && GracefulReconcile(st, out.live.value, next, out.phase) == Reconciled(st, false, true, [], false, out.phase)
  {
    hide PreApply, Spec.SelectOutdated, Spec.SelectNextPod, Spec.RunStateMachine, Detect;
    var pre := PreApply(env.decommission, env.fe, st.replicas, est.replicas, phase).phase;
    var r := GracefulReconcile(st, est, env.v, pre);
    var stored := est.annotation.action;
    var a := Acting(Input(st, est, env.v, true), stored);
    ActingFacts(Input(st, est, env.v, true), stored);
    GracefulStepOnDelete(st, est, env.v, pre);
    HandlerHasShape(est, env.v, a);
    assert r.cleared;
    ClearedOnlyWhenUpdated(st, est, env.v, pre);
    var live := ReconcileExisting(env, st, est, phase).live.value;
    assert live.updateRevision == est.updateRevision && live.replicas <= st.replicas && HashOf(live) == HashOf(st);
    DetectsNothingIff(st, live, next);
  }

  /** A reconcile detects nothing to do exactly when no replica is to go, the spec is the applied one,
      and the update revision is absent, current, or carried by every pod that can be listed. */
  lemma DetectsNothingIff(st: Sts, est: Sts, v: View)
    ensures Detect(st, est, v) == None
       <==> && st.replicas >= est.replicas
            && HashOf(st) == HashOf(est)
            && (est.updateRevision == "" || est.updateRevision == est.currentRevision || v.detectList.None?
                || forall p | p in v.detectList.value :: p.revision == est.updateRevision)
  {
    hide Spec.SelectOutdated;
    if v.detectList.Some? {
      var pod := RollingRun.SelectsHighestOutdated(est, v.(listed := v.detectList), RecoverAction(est));
    } else {
      NoListNoSelection(est, v);
    }
  }

  /** A failed pod list reads as no outdated pods. */
  lemma NoListNoSelection(est: Sts, v: View)
    requires v.detectList.None?
    ensures Spec.SelectOutdated(est, v.(listed := v.detectList), RecoverAction(est)).None?
  {
  }

  /** What a whole reconcile of a rolling update leaves behind, once it gets as far as a landing apply: the
      handler's record and effects, on a StatefulSet that Kubernetes does not update by itself. */
  lemma RollingStepPersists(env: Env, st: Sts, est: Sts, phase: GroupPhase)
    requires env.execConfigured && env.answer == Landed && st.annotation == NoAnnotation && st.replicas >= est.replicas
    requires est.annotation.Encoded? && WellFormed(est.annotation.action) && est.annotation.action.kind == RollingUpdate
    requires est.strategy == OnDelete
    requires var o := Advance(st, est, env.v, est.annotation.action);
             o.ok && !(o.action.phase == Done && ShouldFinalize(est, env.v, o.action))
    requires ReconcileExisting(env, st, est, phase).applied.Some?
    ensures var out, o := ReconcileExisting(env, st, est, phase), Advance(st, est, env.v, est.annotation.action);
            && out.live.Some? && out.live.value.annotation == Encoded(o.action) && out.live.value.strategy == OnDelete
            && out.events == o.events
  {
    hide PreApply, Spec.RunStateMachine, Detect, ShouldFinalize, HashOf;
    var i := Input(st, est, env.v, true);
    ActingFacts(i, est.annotation.action);
    HandlerHasShape(est, env.v, Acting(i, est.annotation.action));
  }

  // ----- the count a scale-down leaves behind

  /** A scale-down's deletion step lowers the replica count to the deleted ordinal, but the same
      reconcile then applies the count it read at its start: the lower count survives exactly when
      that apply does not land. */
  lemma WrittenCountSurvivesUnlessApplied(env: Env, st: Sts, est: Sts, phase: GroupPhase)
    requires env.execConfigured && st.annotation == NoAnnotation && st.specHash == None
    requires est.annotation.Encoded? && WellFormed(est.annotation.action)
    requires var a := est.annotation.action;
             a.kind == ScaleDown && a.phase == DeletePod && a.currentOrdinal == est.replicas - 1
    requires !env.v.podReadFails && env.v.deleteOutcome != Refused
    requires env.v.liveReplicas == Some(est.replicas) && !env.v.replicasWriteFails
    requires ReconcileExisting(env, st, est, phase).applied.Some?
    ensures var live := ReconcileExisting(env, st, est, phase).live;
            && live.Some?
            && live.value.replicas == (if env.answer == Landed then est.replicas else est.annotation.action.currentOrdinal)
  {
    hide PreApply, Spec.RunStateMachine, Spec.SelectOutdated, Detect;
    var a := est.annotation.action;
    assert Preempt(a, Detect(st, est, env.v)) == a by { DetectsAtMostScaleDown(st, est, env.v); }
    DeletionWritesCount(est, env.v, a);
  }

  lemma DeletionWritesCount(est: Sts, v: View, a: Action)
    requires WellFormed(a) && a.kind == ScaleDown && a.phase == DeletePod && a.currentOrdinal == est.replicas - 1
    requires !v.podReadFails && v.deleteOutcome != Refused && v.liveReplicas == Some(est.replicas) && !v.replicasWriteFails
    ensures var o := Spec.RunStateMachine(est, v, a);
            && o.ok && o.action.phase == TriggerDrain && o.action.kind == ScaleDown
            && o.events != [] && o.events[|o.events| - 1] == ReplicasWritten(a.currentOrdinal)
  {
  }

  lemma DetectsAtMostScaleDown(st: Sts, est: Sts, v: View)
    ensures var d := Detect(st, est, v); d.Some? ==> Priority(d.value.kind) <= Priority(ScaleDown)
  {
    hide Spec.SelectOutdated;
  }

  /** The stored scale-down has removed all the pods it was to remove. */
  predicate NoPodLeft(a: Action, est: Sts)
    requires WellFormed(a) && a.kind == ScaleDown
  {
    a.phase == Done || (a.phase == TriggerDrain && a.desiredReplicas.value >= est.replicas)
  }

  /** A read or a deletion the handler needs does not succeed. */
  predicate CallFails(a: Action, v: View) {
    v.podReadFails || (a.phase == DeletePod && a.currentPod in v.pods && v.deleteOutcome == Refused)
  }

  lemma HandlerFailsOrDoneIff(est: Sts, v: View, a: Action)
    requires WellFormed(a) && a.kind == ScaleDown
    ensures var o := Spec.RunStateMachine(est, v, a);
            (!o.ok || o.action.phase == Done) <==> (NoPodLeft(a, est) || CallFails(a, v))
  {
    hide Spec.SelectOutdated, PodNames.PodName, Spec.HandleWaitPodReady, Spec.HandleWaitBEAlive;
  }

  /** While a stored scale-down holds the count back from a smaller desired one, a reconcile applies a
      smaller count if and only if no pod is left to remove, a pod cannot be read, or its deletion is
      refused. */
  lemma CountDropsIffFailedOrDone(env: Env, st: Sts, est: Sts, phase: GroupPhase)
    requires env.execConfigured && st.annotation == NoAnnotation && st.replicas < est.replicas
    requires est.annotation.Encoded? && WellFormed(est.annotation.action) && est.annotation.action.kind == ScaleDown
    requires ReconcileExisting(env, st, est, phase).applied.Some?
    ensures ReconcileExisting(env, st, est, phase).applied.value.replicas < est.replicas
       <==> (NoPodLeft(est.annotation.action, est) || CallFails(est.annotation.action, env.v))
  {
    hide PreApply, Spec.RunStateMachine, Spec.SelectOutdated, Detect;
    var a := est.annotation.action;
    assert Preempt(a, Detect(st, est, env.v)) == a by { DetectsAtMostScaleDown(st, est, env.v); }
    HandlerKeepsGoal(est, env.v, a);
    HandlerFailsOrDoneIff(est, env.v, a);
  }

  lemma NoPodLeftEnds(est: Sts, v: View, a: Action)
    requires WellFormed(a) && a.kind == ScaleDown && NoPodLeft(a, est)
    ensures var o := Spec.RunStateMachine(est, v, a); o.ok && o.action.phase == Done && o.action.kind == ScaleDown && o.events == []
  {
    hide Spec.SelectOutdated, PodNames.PodName, Spec.DrainCurrentPod;
  }

  /** The desired count a scale-down started with is never raised or lowered later. When it has been reached
      and the spec asks for still less by then, the finishing reconcile applies that at once: the pods in
      between go without a drain. */
  lemma LoweredTargetIsAppliedUndrained(env: Env, st: Sts, est: Sts, phase: GroupPhase)
    requires env.execConfigured && env.answer == Landed && st.annotation == NoAnnotation && st.replicas < est.replicas
    requires HashOf(st) != HashOf(est)
    requires est.annotation.Encoded? && WellFormed(est.annotation.action) && est.annotation.action.kind == ScaleDown
    requires NoPodLeft(est.annotation.action, est)
    requires ReconcileExisting(env, st, est, phase).applied.Some?
    ensures var out := ReconcileExisting(env, st, est, phase);
            && out.live.Some? && out.live.value.replicas == st.replicas && out.events == []
            && (out.live.value.annotation == if env.v.finalizeFails then est.annotation else NoAnnotation)
  {
    hide PreApply, Spec.SelectOutdated, Detect, Spec.RunStateMachine;
    var a := est.annotation.action;
    assert Preempt(a, Detect(st, est, env.v)) == a by { DetectsAtMostScaleDown(st, est, env.v); }
    NoPodLeftEnds(est, env.v, a);
  }

  /** So a failed pod read during the wait for a drain lets Kubernetes remove pods nobody has drained: the
      desired count is applied, and the record still says the drain is going on. */
  lemma FailedReadDropsUndrainedPods(env: Env, st: Sts, est: Sts, phase: GroupPhase)
    requires env.execConfigured && env.answer == Landed && st.annotation == NoAnnotation && st.replicas < est.replicas
    requires est.annotation.Encoded? && WellFormed(est.annotation.action)
    requires est.annotation.action.kind == ScaleDown && est.annotation.action.phase == WaitDrain && env.v.podReadFails
    requires ReconcileExisting(env, st, est, phase).applied.Some?
    ensures var out := ReconcileExisting(env, st, est, phase);
            && out.live.Some? && out.live.value.replicas == st.replicas
            && out.live.value.annotation == est.annotation && out.events == []
  {
    hide PreApply, Spec.SelectOutdated, Detect;
    assert Preempt(est.annotation.action, Detect(st, est, env.v)) == est.annotation.action by {
      DetectsAtMostScaleDown(st, est, env.v);
    }
  }
}
