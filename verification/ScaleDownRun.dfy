/** A graceful scale-down, reconcile by reconcile. With every apply landing it never gets anywhere, because
    each apply restores the replica count the reconcile started with. It descends when the apply of each
    deleting reconcile conflicts or fails: then the lowered count stays, and the next reconcile finds the
    pod gone. */
module ScaleDownRun {
  import opened Wrappers
  import opened GracefulTypes
  import opened GracefulRollout
  import opened GracefulRuns
  import opened RollingRun
  import opened StatefulSetReconcile
  import opened ScaleIn
  import Decommission
  import Spec = GracefulSpec
  import opened GoStrings
  import opened PodNames

  // ----- one reconcile of a stored scale-down

  /** The outcome of the handler for the stored action. */
  function Handled(env: Env, st: Sts, est: Sts): Spec.Outcome
    requires est.annotation.Encoded?
  {
    Advance(st, est, env.v, est.annotation.action)
  }

  predicate WritesCount(events: seq<Event>) { events != [] && events[|events| - 1].ReplicasWritten? }

  lemma DetectsNothingHigher(st: Sts, est: Sts, v: View, a: Action)
    requires a.kind == ScaleDown
    ensures Preempt(a, Detect(st, est, v)) == a && Advance(st, est, v, a) == Spec.RunStateMachine(est, v, a)
  {
    hide Spec.SelectOutdated, Spec.RunStateMachine;
  }

  /** A scale-down is Done only when the count is down to the desired one. */
  lemma DoneOnlyAtDesired(est: Sts, v: View, a: Action)
    requires WellFormed(a) && a.kind == ScaleDown && a.phase != Done && a.desiredReplicas.value < est.replicas
    ensures Spec.RunStateMachine(est, v, a).action.phase != Done
  {
    hide PodName, Spec.SelectOutdated;
  }

  /** The handler writes a count only when it moves on to the next pod. */
  lemma WritesOnlyAfterDelete(est: Sts, v: View, a: Action)
    requires WellFormed(a)
    ensures var o := Spec.RunStateMachine(est, v, a);
            o.ok && WritesCount(o.events) ==> o.action.phase != a.phase
  {
    hide Spec.RunStateMachine;
    HandlerHasShape(est, v, a);
  }

  /** A reconcile that gets as far as applying, without a handler error and without the scale-down being
      Done: a landing apply stores the new record and the count read at the start, any other keeps the
      record and the count the handler wrote. */
  predicate Follows(out: Reconcile, o: Spec.Outcome, est: Sts, landed: bool) {
    && out.live.Some? && out.live.value.name == est.name
    && if out.applied.None? then out.live.value == est && out.events == []
       else
         && out.events == o.events
         && (landed ==> out.live.value.annotation == Encoded(o.action) && out.live.value.replicas == est.replicas)
         && (!landed && Encoded(o.action) != est.annotation ==>
               && out.live.value.annotation == est.annotation
               && out.live.value.replicas == if WritesCount(o.events) then o.events[|o.events| - 1].replicas else est.replicas)
  }

  lemma AppliedStep(env: Env, st: Sts, est: Sts, phase: GroupPhase)
    requires env.execConfigured && st.annotation == NoAnnotation
    requires est.annotation.Encoded? && WellFormed(est.annotation.action) && est.annotation.action.kind == ScaleDown
    requires var o := Handled(env, st, est); o.ok && o.action.phase != Done
    ensures Follows(ReconcileExisting(env, st, est, phase), Handled(env, st, est), est, env.answer == Landed)
  {
    hide PreApply, Spec.RunStateMachine, GracefulReconcile, HashOf;
    var i := Input(st, est, env.v, true);
    DetectsNothingHigher(st, est, env.v, est.annotation.action);
    HandlerKeepsGoal(est, env.v, est.annotation.action);
    WritesOnlyAfterDelete(est, env.v, est.annotation.action);
    OutcomeIsHandlers(i);
    PhaseIsCarried(i, PreApply(env.decommission, env.fe, st.replicas, est.replicas, phase).phase);
  }

  // ----- with every apply landing

  /** The stored scale-down still has pods to remove. */
  predicate Unfinished(live: Option<Sts>, desired: int, replicas: int) {
    && live.Some? && live.value.annotation.Encoded?
    && var a := live.value.annotation.action;
    && WellFormed(a) && a.kind == ScaleDown && a.desiredReplicas == Some(desired) && a.phase != Done
    && desired < replicas == live.value.replicas
  }

  /** A reconcile that applies with success and whose handler has no error. */
  predicate Smooth(env: Env, st: Sts, live: Option<Sts>) {
    && env.execConfigured && env.answer == Landed && st.annotation == NoAnnotation
    && (live.Some? && live.value.annotation.Encoded? ==> Handled(env, st, live.value).ok)
  }

  lemma SmoothStepStaysUnfinished(env: Env, st: Sts, live: Option<Sts>, phase: GroupPhase, desired: int, replicas: int)
    requires Unfinished(live, desired, replicas) && Smooth(env, st, live)
    ensures Unfinished(ReconcileSts(env, st, live, phase).live, desired, replicas)
  {
    hide ReconcileExisting, Spec.RunStateMachine, Advance;
    var est, a := live.value, live.value.annotation.action;
    DetectsNothingHigher(st, est, env.v, a);
    DoneOnlyAtDesired(est, env.v, a);
    AppliedStep(env, st, est, phase);
    HandlerKeepsWellFormed(est, env.v, a);
    HandlerKeepsGoal(est, env.v, a);
  }

  /** However often it is reconciled, whatever the readings and the desired spec: while every apply lands, no
      handler fails and nobody else changes the count, a scale-down that has a pod to remove keeps its count
      and is never Done. */
  lemma {:induction false} SmoothScaleDownNeverEnds(live: Option<Sts>, steps: seq<LiveStep>, desired: int, replicas: int)
    requires Unfinished(live, desired, replicas)
    requires forall k | 0 <= k < |steps| ::
               if steps[k].ReconcileOnce? then Smooth(steps[k].env, steps[k].st, LiveAfter(live, steps[..k]))
               else steps[k].replicas == replicas
    ensures Unfinished(LiveAfter(live, steps), desired, replicas)
  {
    hide ReconcileSts, Smooth;
    if steps != [] {
      var k := |steps| - 1;
      assert forall m | 0 <= m < k :: steps[..k][m] == steps[m] && steps[..k][..m] == steps[..m];
      SmoothScaleDownNeverEnds(live, steps[..k], desired, replicas);
      if steps[k].ReconcileOnce? {
        SmoothStepStaysUnfinished(steps[k].env, steps[k].st, LiveAfter(live, steps[..k]), steps[k].phase, desired, replicas);
      }
    }
  }

  // ----- with the apply of every deleting reconcile not landing

  datatype ShrinkState = ShrinkState(live: Sts, pods: Pods, trace: seq<Event>, changes: nat)

  datatype ShrinkInput = ShrinkInput(env: Env, st: Sts, phase: GroupPhase)

  function StoredPhase(a: Annotation): Option<Phase> {
    if a.Encoded? then Some(a.action.phase) else None
  }

  predicate Deleting(events: seq<Event>) { events != [] && events[0].DeleteIssued? }

  /** Reads see the pods and the count as they are, and writes go through. */
  predicate FaithfulCount(v: View, s: ShrinkState) {
    && v.pods == s.pods && !v.podReadFails && v.deleteOutcome == Accepted
    && v.liveReplicas == Some(s.live.replicas) && !v.replicasWriteFails && !v.finalizeFails
  }

  /** A pod at or above the count is not created, none below it vanishes. */
  ghost predicate PodsFollow(before: Pods, live: Sts, after: Pods) {
    && before.Keys <= after.Keys
    && forall n: nat | n >= live.replicas && PodName(live.name, n) in after :: PodName(live.name, n) in before
  }

  ghost predicate ShrinkStep(s: ShrinkState, s': ShrinkState, i: ShrinkInput, desired: nat) {
    && s.live.annotation.Encoded?
    && i.env.execConfigured && i.st.annotation == NoAnnotation && i.st.replicas == desired
    && FaithfulCount(i.env.v, s)
    && var out := ReconcileExisting(i.env, i.st, s.live, i.phase);
    && (Deleting(out.events) <==> i.env.answer != Landed)
    && out.live.Some?
    && s'.live == out.live.value.(updateRevision := s'.live.updateRevision, currentRevision := s'.live.currentRevision)
    && s'.trace == s.trace + out.events
    && s'.changes == s.changes + (if StoredPhase(s'.live.annotation) != StoredPhase(s.live.annotation) then 1 else 0)
    && PodsFollow(Remaining(s.pods, out.events), s'.live, s'.pods)
  }

  ghost predicate ShrinkingFrom(run: seq<ShrinkState>, inputs: seq<ShrinkInput>, desired: nat) {
    && |run| == |inputs| + 1
    && run[0].live.annotation == Encoded(FreshAction(ScaleDown, "", Some(desired)))
    && run[0].trace == [] && run[0].changes == 0
    && desired <= run[0].live.replicas
    && (forall n: nat | n < run[0].live.replicas :: PodName(run[0].live.name, n) in run[0].pods)
    && forall k | 0 <= k < |inputs| :: ShrinkStep(run[k], run[k + 1], inputs[k], desired)
  }

  /** The pod names from ordinal `high - 1` down to ordinal `low`. */
  function Downwards(sts: string, high: nat, low: nat): seq<string>
    requires low <= high
  {
    seq(high - low, k requires 0 <= k < high - low => PodName(sts, high - 1 - k))
  }

  /** The record is about pod n. */
  predicate At(a: Action, sts: string, n: int) {
    a.currentOrdinal == n && a.currentPod == PodName(sts, n)
  }

  ghost predicate ShrinkInvariant(start: nat, desired: nat, s: ShrinkState) {
    var r, sts := s.live.replicas, s.live.name;
    && desired <= r <= start
    && (forall n: nat | n < r :: PodName(sts, n) in s.pods)
    && Deletions(s.trace) == Downwards(sts, start, r)
    && if s.live.annotation.Encoded? then
         var a, done := s.live.annotation.action, 3 * (start - r);
         && WellFormed(a) && a.kind == ScaleDown && a.desiredReplicas == Some(desired)
         && match a.phase
            case TriggerDrain => s.changes == done
            case WaitDrain => desired < r && At(a, sts, r - 1) && s.changes == done + 1
            case DeletePod =>
              || (desired < r && At(a, sts, r - 1) && s.changes == done + 2)
              || (r < start && At(a, sts, r) && PodName(sts, r) !in s.pods && s.changes == done - 1)
            case _ => false
       else s.live.annotation == NoAnnotation && r == desired && s.changes == 3 * (start - desired) + 1
  }

  lemma PodNamesDiffer(sts: string, m: nat, n: nat)
    requires m != n
    ensures PodName(sts, m) != PodName(sts, n)
  {
    var a, b := PodName(sts, m), PodName(sts, n);
    assert a[|sts| + 1..] == Decimal(m) && b[|sts| + 1..] == Decimal(n);
    if a == b { DecimalInjective(m, n); }
  }

  lemma DeletionsOne(trace: seq<Event>, e: Event)
    ensures Deletions(trace + [e]) == Deletions(trace) + if e.DeleteIssued? then [e.pod] else []
  {
    assert (trace + [e])[..|trace|] == trace;
  }

  /** Deleting the highest pod and writing the count below it. */
  lemma DeletionExtends(trace: seq<Event>, events: seq<Event>, start: nat, sts: string, replicas: nat)
    requires 0 < replicas <= start && |events| == 2
    requires events[0].DeleteIssued? && events[0].pod == PodName(sts, replicas - 1) && events[1].ReplicasWritten?
    requires Deletions(trace) == Downwards(sts, start, replicas)
    ensures Deletions(trace + events) == Downwards(sts, start, replicas - 1)
  {
    hide PodName, Deletions;
    assert trace + events == (trace + [events[0]]) + [events[1]];
    DeletionsOne(trace, events[0]);
    DeletionsOne(trace + [events[0]], events[1]);
    assert Downwards(sts, start, replicas) + [PodName(sts, replicas - 1)] == Downwards(sts, start, replicas - 1);
  }

  lemma DeletionKeepsLower(pods: Pods, events: seq<Event>, sts: string, replicas: nat)
    requires 0 < replicas && |events| == 2
    requires events[0].DeleteIssued? && events[0].pod == PodName(sts, replicas - 1) && events[1].ReplicasWritten?
    requires forall n: nat | n < replicas :: PodName(sts, n) in pods
    ensures forall n: nat | n < replicas - 1 :: PodName(sts, n) in Remaining(pods, events)
  {
    hide PodName;
    forall n: nat | n < replicas - 1 ensures PodName(sts, n) in Remaining(pods, events) {
      PodNamesDiffer(sts, n, replicas - 1);
    }
  }

  lemma NoDeletion(pods: Pods, trace: seq<Event>, events: seq<Event>)
    requires |events| <= 1 && (events != [] ==> !events[0].DeleteIssued?)
    ensures Remaining(pods, events) == pods && Deletions(trace + events) == Deletions(trace)
  {
    EffectOn(pods, trace, events, "");
    assert DeletedPods(events) == {};
  }

  /** What the handler does to the record under the run's readings. */
  ghost predicate NextShrinkPhase(s: ShrinkState, o: Spec.Outcome, desired: nat)
    requires s.live.annotation.Encoded?
  {
    var a, r, sts := s.live.annotation.action, s.live.replicas, s.live.name;
    && o.ok
    && match a.phase
       case TriggerDrain =>
         if r == desired then o.events == [] && o.action.phase == Done
         else |o.events| == 1 && o.events[0].DrainStarted? && o.action.phase == WaitDrain && At(o.action, sts, r - 1)
       case WaitDrain =>
         && At(o.action, sts, r - 1)
         && ((o.events == [] && o.action.phase == WaitDrain)
             || (|o.events| == 1 && o.events[0].DrainEnded? && o.action.phase == DeletePod))
       case DeletePod =>
         && o.action.phase == TriggerDrain
         && if a.currentPod in s.pods then
              |o.events| == 2 && o.events[0].DeleteIssued? && o.events[0].pod == a.currentPod
              && o.events[1] == ReplicasWritten(a.currentOrdinal)
            else o.events == []
       case _ => false
  }

  lemma ShrinkTakesNextPhase(start: nat, desired: nat, s: ShrinkState, v: View)
    requires ShrinkInvariant(start, desired, s) && s.live.annotation.Encoded? && FaithfulCount(v, s)
    ensures NextShrinkPhase(s, Spec.RunStateMachine(s.live, v, s.live.annotation.action), desired)
  {
    hide PodName, Deletions, Downwards, Spec.SelectOutdated, Spec.HandleWaitPodReady, Spec.HandleWaitBEAlive;
    if s.live.replicas > 0 {
      assert s.live.replicas - 1 >= 0 ==> PodName(s.live.name, s.live.replicas - 1) in s.pods;
    }
  }

  /** The reconcile that finds the scale-down Done clears it and applies the desired count. */
  lemma DoneStep(env: Env, st: Sts, est: Sts, phase: GroupPhase)
    requires env.execConfigured && env.answer == Landed && st.annotation == NoAnnotation && !env.v.finalizeFails
    requires est.annotation.Encoded? && WellFormed(est.annotation.action) && est.annotation.action.kind == ScaleDown
    requires st.replicas == est.replicas
    requires var o := Handled(env, st, est); o.ok && o.action.phase == Done && o.events == []
    ensures var out := ReconcileExisting(env, st, est, phase);
            && out.events == [] && out.live.Some? && out.live.value.name == est.name && out.live.value.replicas == est.replicas
            && (out.applied.None? ==> out.live.value == est)
            && (out.applied.Some? ==> out.live.value.annotation == NoAnnotation)
  {
    hide PreApply, Spec.RunStateMachine, Detect, Spec.SelectOutdated;
    DetectsNothingHigher(st, est, env.v, est.annotation.action);
    HandlerKeepsGoal(est, env.v, est.annotation.action);
  }

  /** A reconcile that does nothing to pods or to the record. */
  lemma IdleKeepsShrinking(start: nat, desired: nat, s: ShrinkState, s': ShrinkState)
    requires ShrinkInvariant(start, desired, s)
    requires s'.live == s.live.(updateRevision := s'.live.updateRevision, currentRevision := s'.live.currentRevision)
    requires Deletions(s'.trace) == Deletions(s.trace) && s'.changes == s.changes && PodsFollow(s.pods, s'.live, s'.pods)
    ensures ShrinkInvariant(start, desired, s')
  {
    hide PodName, Deletions, Downwards, WellFormed;
  }

  lemma NothingRemoved(pods: Pods, trace: seq<Event>)
    ensures Remaining(pods, []) == pods && trace + [] == trace
  {
    assert DeletedPods([]) == {};
  }

  lemma StepKeepsShrinking(start: nat, desired: nat, s: ShrinkState, s': ShrinkState, i: ShrinkInput)
    requires ShrinkInvariant(start, desired, s) && ShrinkStep(s, s', i, desired)
    ensures ShrinkInvariant(start, desired, s')
  {
    hide PodName, ReconcileExisting, Spec.RunStateMachine, Advance, Deletions, Downwards, Remaining, WellFormed;
    var est, a := s.live, s.live.annotation.action;
    DetectsNothingHigher(i.st, est, i.env.v, a);
    ShrinkTakesNextPhase(start, desired, s, i.env.v);
    HandlerKeepsWellFormed(est, i.env.v, a);
    HandlerKeepsGoal(est, i.env.v, a);
    var o, out := Handled(i.env, i.st, est), ReconcileExisting(i.env, i.st, est, i.phase);
    NothingRemoved(s.pods, s.trace);
    if o.action.phase == Done {
      if i.env.answer == Landed { DoneStep(i.env, i.st, est, i.phase); } else { DoneIsQuiet(i.env, i.st, est, i.phase); }
    } else {
      AppliedStep(i.env, i.st, est, i.phase);
    }
    if out.applied.None? {
      IdleKeepsShrinking(start, desired, s, s');
    } else if Deleting(o.events) {
      DeletionExtends(s.trace, o.events, start, s.live.name, s.live.replicas);
      DeletionKeepsLower(s.pods, o.events, s.live.name, s.live.replicas);
      DeletedIsGone(s.pods, o.events, s.live.name, s.live.replicas);
    } else {
      NoDeletion(s.pods, s.trace, o.events);
    }
  }

  lemma DoneIsQuiet(env: Env, st: Sts, est: Sts, phase: GroupPhase)
    requires env.execConfigured && est.annotation.Encoded? && st.annotation == NoAnnotation
    requires Handled(env, st, est).events == []
    ensures !Deleting(ReconcileExisting(env, st, est, phase).events)
  {
    hide PreApply, Spec.RunStateMachine, Detect, Spec.SelectOutdated;
  }

  lemma DeletedIsGone(pods: Pods, events: seq<Event>, sts: string, replicas: nat)
    requires 0 < replicas && events != [] && events[0].DeleteIssued? && events[0].pod == PodName(sts, replicas - 1)
    ensures PodName(sts, replicas - 1) !in Remaining(pods, events)
  {
    hide PodName;
    assert events[0] in events;
  }

  lemma {:induction false} RunKeepsShrinking(run: seq<ShrinkState>, inputs: seq<ShrinkInput>, desired: nat, k: nat)
    requires ShrinkingFrom(run, inputs, desired) && k < |run|
    ensures run[k].live.name == run[0].live.name && ShrinkInvariant(run[0].live.replicas, desired, run[k])
  {
    hide PodName, ShrinkStep, ShrinkInvariant;
    if k == 0 {
      StartsShrinking(run[0], desired);
    } else {
      RunKeepsShrinking(run, inputs, desired, k - 1);
      assert ShrinkStep(run[k - 1], run[k], inputs[k - 1], desired);
      StepKeepsShrinking(run[0].live.replicas, desired, run[k - 1], run[k], inputs[k - 1]);
      KeepsName(run[k - 1], run[k], inputs[k - 1], desired);
    }
  }

  lemma StartsShrinking(s: ShrinkState, desired: nat)
    requires s.live.annotation == Encoded(FreshAction(ScaleDown, "", Some(desired))) && s.trace == [] && s.changes == 0
    requires desired <= s.live.replicas && forall n: nat | n < s.live.replicas :: PodName(s.live.name, n) in s.pods
    ensures ShrinkInvariant(s.live.replicas, desired, s)
  {
    hide PodName;
  }

  lemma KeepsName(s: ShrinkState, s': ShrinkState, i: ShrinkInput, desired: nat)
    requires ShrinkStep(s, s', i, desired)
    ensures s'.live.name == s.live.name
  {
    hide PreApply, GracefulReconcile, PodName, Remaining;
  }

  /** At every point the deleted pods are exactly those from the first count down to the present one, in
      that order. Once the action is cleared the present count is the desired one, and the stored phase has
      changed three times per pod and once more. */
  lemma DeletesDownToDesired(run: seq<ShrinkState>, inputs: seq<ShrinkInput>, desired: nat, k: nat)
    requires ShrinkingFrom(run, inputs, desired) && k < |run|
    ensures desired <= run[k].live.replicas <= run[0].live.replicas
    ensures Deletions(run[k].trace) == Downwards(run[0].live.name, run[0].live.replicas, run[k].live.replicas)
    ensures !run[k].live.annotation.Encoded? ==>
              run[k].live.replicas == desired && run[k].changes == 3 * (run[0].live.replicas - desired) + 1
  {
    hide PodName, ShrinkStep;
    RunKeepsShrinking(run, inputs, desired, k);
  }

  // ----- such a run exists

  /** Every wait is over, and nothing but the apply of a deleting reconcile stands in the way. */
  function EasyInput(s: ShrinkState, desired: nat): ShrinkInput
    requires s.live.annotation.Encoded?
  {
    var a := s.live.annotation.action;
    var now := if a.timer.deadlineAt.Some? then a.timer.deadlineAt.value + 1 else 0;
    var v := View(now, now, None, None, None, s.pods, false, Accepted, map[], true, true, Some(s.live.replicas), false, false);
    var deletes := a.phase == DeletePod && a.currentPod in s.pods;
    ShrinkInput(
      Env(false, false, true, true, FeView(true, None, Some([]), false), v, if deletes then Conflict else Landed),
      Sts(s.live.name, desired, s.live.template, None, RollingStrategy, NoAnnotation, "", ""), Ready)
  }

  function EasyNext(s: ShrinkState, desired: nat): ShrinkState
    requires s.live.annotation.Encoded?
  {
    var i := EasyInput(s, desired);
    var out := ReconcileExisting(i.env, i.st, s.live, i.phase);
    var live := if out.live.Some? then out.live.value else s.live;
    ShrinkState(live, Remaining(s.pods, out.events), s.trace + out.events,
                s.changes + if StoredPhase(live.annotation) != StoredPhase(s.live.annotation) then 1 else 0)
  }

  /** How far a record is from the next smaller count. */
  function ShrinkRank(s: ShrinkState): nat
    requires s.live.annotation.Encoded?
  {
    var a := s.live.annotation.action;
    match a.phase
    case TriggerDrain => 2
    case WaitDrain => 1
    case DeletePod => if a.currentPod in s.pods then 0 else 3
    case _ => 0
  }

  lemma EasyInputApplies(s: ShrinkState, desired: nat)
    requires s.live.annotation.Encoded?
    ensures var i := EasyInput(s, desired); ReconcileExisting(i.env, i.st, s.live, i.phase).applied.Some?
  {
    hide GracefulReconcile;
    assert Decommission.ScaledOut([], desired) == Some([]);
  }

  lemma WaitIsOver(s: ShrinkState, desired: nat)
    requires s.live.annotation.Encoded? && WellFormed(s.live.annotation.action) && s.live.annotation.action.phase == WaitDrain
    requires s.live.annotation.action.currentPod in s.pods
    ensures Spec.RunStateMachine(s.live, EasyInput(s, desired).env.v, s.live.annotation.action).action.phase == DeletePod
  {
  }

  lemma EasyStep(start: nat, desired: nat, s: ShrinkState)
    requires ShrinkInvariant(start, desired, s) && s.live.annotation.Encoded?
    ensures var t := EasyNext(s, desired);
            && ShrinkStep(s, t, EasyInput(s, desired), desired)
            && (t.live.annotation.Encoded? ==>
                  t.live.replicas < s.live.replicas || (t.live.replicas == s.live.replicas && ShrinkRank(t) < ShrinkRank(s)))
            && t.live.replicas <= s.live.replicas
  {
    hide PodName, ReconcileExisting, Spec.RunStateMachine, Advance, Deletions, Downwards, WellFormed;
    var i, est, a := EasyInput(s, desired), s.live, s.live.annotation.action;
    DetectsNothingHigher(i.st, est, i.env.v, a);
    ShrinkTakesNextPhase(start, desired, s, i.env.v);
    EasyInputApplies(s, desired);
    if a.phase == WaitDrain { WaitIsOver(s, desired); }
    NothingRemoved(s.pods, s.trace);
    var o := Handled(i.env, i.st, est);
    if o.action.phase == Done {
      DoneStep(i.env, i.st, est, i.phase);
    } else {
      AppliedStep(i.env, i.st, est, i.phase);
    }
    if Deleting(o.events) { DeletedIsGone(s.pods, o.events, est.name, est.replicas); }
  }

  /** From every point of such a run there is a way to its end. */
  lemma {:induction false} DescentExists(start: nat, desired: nat, s: ShrinkState)
    returns (run: seq<ShrinkState>, inputs: seq<ShrinkInput>)
    requires ShrinkInvariant(start, desired, s)
    ensures |run| == |inputs| + 1 && run[0] == s && !run[|inputs|].live.annotation.Encoded?
    ensures forall k | 0 <= k < |inputs| :: ShrinkStep(run[k], run[k + 1], inputs[k], desired)
    decreases s.live.replicas, if s.live.annotation.Encoded? then ShrinkRank(s) + 1 else 0
  {
    hide ShrinkStep, EasyNext, EasyInput;
    if !s.live.annotation.Encoded? {
      run, inputs := [s], [];
    } else {
      var t := EasyNext(s, desired);
      EasyStep(start, desired, s);
      StepKeepsShrinking(start, desired, s, t, EasyInput(s, desired));
      var rest, more := DescentExists(start, desired, t);
      run, inputs := [s] + rest, [EasyInput(s, desired)] + more;
    }
  }
}
