/** Safety of the graceful rollout over every run: arbitrary readings at every reconcile, pre-emption,
    handler errors, and records lost to a conflicting write. */
module GracefulRuns {
  import opened Wrappers
  import opened GracefulTypes
  import opened GracefulRollout
  import Spec = GracefulSpec
  import PodNames
  import ScaleIn

  /** The live annotation, and everything done so far. */
  datatype State = State(annotation: Annotation, trace: seq<Event>)

  /** One reconcile: the desired and the existing StatefulSet, its readings, and whether its write landed. */
  datatype Input = Input(st: Sts, est: Sts, v: View, landed: bool)

  function Outcome(i: Input): Reconciled {
    GracefulReconcile(i.st, i.est, i.v, ScaleIn.Reconciling)
  }

  /** A merge patch without the annotation key leaves the live annotation alone. */
  function AnnotationAfter(before: Annotation, r: Reconciled, landed: bool): Annotation {
    if r.cleared then NoAnnotation
    else if landed && r.st.annotation != NoAnnotation then r.st.annotation
    else before
  }

  ghost predicate Step(s: State, s': State, i: Input) {
    && i.st.annotation == NoAnnotation
    && i.est.annotation == s.annotation
    && s' == State(AnnotationAfter(s.annotation, Outcome(i), i.landed), s.trace + Outcome(i).events)
  }

  ghost predicate Run(states: seq<State>, inputs: seq<Input>) {
    && |states| == |inputs| + 1
    && states[0] == State(NoAnnotation, [])
    && forall k | 0 <= k < |inputs| :: Step(states[k], states[k + 1], inputs[k])
  }

  // ----- the persisted record

  predicate Idle(a: Action) { a == Spec.ClearPod(a) }

  predicate Draining(a: Action) { a.phase == WaitDrain || a.phase == DeletePod }

  predicate Replacing(a: Action) { a.phase == WaitPodReady || a.phase == WaitBEAlive }

  /** What holds of every record the operator persists. */
  predicate WellFormed(a: Action) {
    && (a.kind == RollingUpdate || a.kind == ScaleDown)
    && (a.phase == TriggerDrain || a.phase == Done || Draining(a) || Replacing(a))
    && (a.phase == TriggerDrain || a.phase == Done ==> Idle(a))
    && (Draining(a) ==> a.currentPod != "" && a.drain.triggered && a.timer.startedAt.Some? && a.timer.deadlineAt.Some?)
    && (Replacing(a) ==> a.kind == RollingUpdate && a.currentPod != "")
    && (a.kind == ScaleDown ==>
          a.desiredReplicas.Some? && (a.currentPod != "" ==> a.currentOrdinal >= a.desiredReplicas.value))
    && 0 <= a.stableObservations <= 1
    && (a.stableObservations == 1 ==> a.phase == WaitBEAlive && a.replacement.backendStartTime != "")
    && (a.stableObservations == 0 ==> a.replacement.backendStartTime == "" && a.replacement.backendEpoch == "")
  }

  lemma SelectionFacts(est: Sts, v: View, a: Action)
    ensures var s := Spec.SelectNextPod(est, v, a);
            s.Some? ==>
              && s.value.pod != ""
              && (a.kind == ScaleDown ==>
                    && a.desiredReplicas.Some? && s.value.ordinal >= a.desiredReplicas.value
                    && s.value.pod == PodNames.PodName(est.name, s.value.ordinal))
  {
  }

  lemma DrainKeepsWellFormed(v: View, a: Action)
    requires a.kind == RollingUpdate || a.kind == ScaleDown
    requires a.phase == TriggerDrain && a.currentPod != "" && !a.drain.triggered
    requires a.kind == ScaleDown ==> a.desiredReplicas.Some? && a.currentOrdinal >= a.desiredReplicas.value
    requires a.stableObservations == 0 && a.replacement == NO_REPLACEMENT
    ensures var o := Spec.DrainCurrentPod(v, a); o.ok ==> WellFormed(o.action)
  {
  }

  lemma TriggerKeepsWellFormed(est: Sts, v: View, a: Action)
    requires WellFormed(a) && a.phase == TriggerDrain
    ensures var o := Spec.HandleTriggerDrain(est, v, a); o.ok ==> WellFormed(o.action)
  {
    hide Spec.SelectNextPod, Spec.DrainCurrentPod;
    var r := Spec.RefreshTarget(est, a);
    var s := Spec.SelectNextPod(est, v, r);
    SelectionFacts(est, v, r);
    if s.Some? {
      DrainKeepsWellFormed(v, r.(currentPod := s.value.pod, currentOrdinal := s.value.ordinal,
                                 drain := r.drain.(triggered := false)));
    }
  }

  /** Every handler that succeeds leaves a well-formed record. */
  lemma HandlerKeepsWellFormed(est: Sts, v: View, a: Action)
    requires WellFormed(a)
    ensures var o := Spec.RunStateMachine(est, v, a); o.ok ==> WellFormed(o.action)
  {
    hide Spec.HandleTriggerDrain;
    if a.phase == TriggerDrain {
      TriggerKeepsWellFormed(est, v, a);
    }
  }

  lemma DrainKeepsGoal(v: View, a: Action)
    ensures var b := Spec.DrainCurrentPod(v, a).action;
            b.kind == a.kind && b.desiredReplicas == a.desiredReplicas && b.targetRevision == a.targetRevision
  {
  }

  /** No handler changes what the action is for. */
  lemma HandlerKeepsGoal(est: Sts, v: View, a: Action)
    ensures var b := Spec.RunStateMachine(est, v, a).action;
            && b.kind == a.kind && b.desiredReplicas == a.desiredReplicas
            && (a == Spec.RefreshTarget(est, a) ==> b.targetRevision == a.targetRevision)
  {
    hide Spec.SelectNextPod, Spec.DrainCurrentPod;
    if a.phase == TriggerDrain {
      var r := Spec.RefreshTarget(est, a);
      DrainKeepsGoal(v, r);
      var s := Spec.SelectNextPod(est, v, r);
      if s.Some? {
        DrainKeepsGoal(v, r.(currentPod := s.value.pod, currentOrdinal := s.value.ordinal,
                             drain := r.drain.(triggered := false)));
      }
    }
  }

  /** The record acting in this reconcile: the stored one or the one that pre-empts it, refreshed. */
  function Acting(i: Input, stored: Action): Action {
    Spec.RefreshTarget(i.est, Preempt(stored, Detect(i.st, i.est, i.v)))
  }

  lemma ActingFacts(i: Input, stored: Action)
    requires WellFormed(stored)
    ensures WellFormed(Acting(i, stored))
    ensures Acting(i, stored).kind != stored.kind ==>
              && Acting(i, stored).phase == TriggerDrain
              && Acting(i, stored).kind == ScaleDown
              && Acting(i, stored).desiredReplicas == Some(i.st.replicas)
              && i.st.replicas < i.est.replicas
    ensures Acting(i, stored).kind == stored.kind ==>
              Acting(i, stored) == stored.(targetRevision := Acting(i, stored).targetRevision)
  {
    hide Spec.SelectOutdated;
  }

  ghost predicate RecordInvariant(s: State) {
    s.annotation.Encoded? ==> WellFormed(s.annotation.action)
  }

  lemma StepKeepsRecord(s: State, s': State, i: Input)
    requires Step(s, s', i) && RecordInvariant(s)
    ensures RecordInvariant(s')
  {
    hide Spec.SelectNextPod, Spec.RunStateMachine, Spec.SelectOutdated;
    if s.annotation.Encoded? {
      ActingFacts(i, s.annotation.action);
      HandlerKeepsWellFormed(i.est, i.v, Acting(i, s.annotation.action));
    }
  }

  /** The persisted record is well-formed at every point of every run. */
  lemma {:induction false} RecordIsWellFormed(states: seq<State>, inputs: seq<Input>, k: nat)
    requires Run(states, inputs) && k < |states|
    ensures RecordInvariant(states[k])
  {
    if k > 0 {
      RecordIsWellFormed(states, inputs, k - 1);
      StepKeepsRecord(states[k - 1], states[k], inputs[k - 1]);
    }
  }

  // ----- drain before delete

  /** e ends the drain d started: the container terminated, it restarted, or the grace period ran out. */
  predicate Ends(d: Event, e: Event) {
    && d.DrainStarted? && e.DrainEnded? && d.pod == e.pod
    && (e.terminated || e.restartsSeen > d.restarts || e.endedAt > d.at + d.grace)
  }

  /** d is the drain attempt the record a stands for. */
  predicate StartedBy(a: Action, d: Event) {
    && d.DrainStarted? && d.kind == a.kind && d.pod == a.currentPod && d.restarts == a.initial.restartCount
    && a.timer.startedAt == Some(d.at) && a.timer.deadlineAt == Some(d.at + d.grace)
  }

  predicate AcceptedDelete(e: Event) { e.DeleteIssued? && e.outcome == Accepted }

  /** A reconcile whose detected action takes over from the stored one. */
  predicate Preempts(i: Input) {
    i.est.annotation.Encoded? && Acting(i, i.est.annotation.action).kind != i.est.annotation.action.kind
  }

  predicate DeletesPod(i: Input) {
    exists k :: 0 <= k < |Outcome(i).events| && AcceptedDelete(Outcome(i).events[k])
  }

  /** Which reconciles may lose their record to a conflicting write: pre-empting ones, and ones that had
      a pod deleted. The records of all other reconciles may be lost in any case. */
  datatype Losses = Losses(preemptions: bool, deletions: bool)

  /** Every reconcile is within these losses: any record may be lost. */
  const ANY_LOSS := Losses(true, true)

  predicate Within(l: Losses, i: Input) {
    i.landed || ((Preempts(i) ==> l.preemptions) && (DeletesPod(i) ==> l.deletions))
  }

  /** What may come between the drain of a pod and its deletion: no other drain, except that of a
      scale-down whose pre-empting record was lost, and no deletion, except of the same pod when the
      record of that deletion was lost. */
  predicate Tolerated(l: Losses, kind: ActionType, pod: string, e: Event) {
    && (e.DrainStarted? ==> l.preemptions && kind == RollingUpdate && e.kind == ScaleDown)
    && (AcceptedDelete(e) ==> l.deletions && e.pod == pod)
  }

  ghost predicate Undisturbed(l: Losses, trace: seq<Event>, j: nat, n: nat)
    requires j < n <= |trace| && trace[j].DrainStarted?
  {
    forall m | j < m < n :: Tolerated(l, trace[j].kind, trace[j].pod, trace[m])
  }

  ghost predicate EndedBefore(trace: seq<Event>, j: nat, n: nat)
    requires n <= |trace|
  {
    exists k :: j < k < n && Ends(trace[j], trace[k])
  }

  /** The drain the record stands for is in the trace, and it ended if the record says so. */
  ghost predicate RecordDrained(l: Losses, a: Action, trace: seq<Event>) {
    Draining(a) ==>
      exists j: nat :: j < |trace| && StartedBy(a, trace[j]) && Undisturbed(l, trace, j, |trace|)
                       && (a.phase == DeletePod ==> EndedBefore(trace, j, |trace|))
  }

  /** Drain j of the deleted pod, by the same action, ended before the deletion at i. */
  ghost predicate DrainedFor(l: Losses, trace: seq<Event>, j: nat, i: nat)
    requires i < |trace| && trace[i].DeleteIssued?
  {
    && j < i && trace[j].DrainStarted? && trace[j].pod == trace[i].pod && trace[j].kind == trace[i].kind
    && Undisturbed(l, trace, j, i) && EndedBefore(trace, j, i)
  }

  ghost predicate DeletesDrained(l: Losses, trace: seq<Event>) {
    forall i: nat | i < |trace| && trace[i].DeleteIssued? :: exists j: nat :: DrainedFor(l, trace, j, i)
  }

  lemma EndedBeforeExtends(trace: seq<Event>, more: seq<Event>, j: nat, n: nat, m: nat)
    requires n <= |trace| && n <= m <= |trace + more| && EndedBefore(trace, j, n)
    ensures EndedBefore(trace + more, j, m)
  {
    var k :| j < k < n && Ends(trace[j], trace[k]);
    assert (trace + more)[j] == trace[j] && (trace + more)[k] == trace[k];
  }

  lemma UndisturbedExtends(l: Losses, trace: seq<Event>, more: seq<Event>, j: nat)
    requires j < |trace| && trace[j].DrainStarted? && Undisturbed(l, trace, j, |trace|)
    requires forall i | 0 <= i < |more| :: Tolerated(l, trace[j].kind, trace[j].pod, more[i])
    ensures Undisturbed(l, trace + more, j, |trace + more|)
  {
    hide Tolerated;
    assert forall m | |trace| <= m < |trace + more| :: (trace + more)[m] == more[m - |trace|];
  }

  /** A record kept over tolerated effects keeps its drain. */
  lemma RecordDrainedExtends(l: Losses, a: Action, trace: seq<Event>, more: seq<Event>)
    requires RecordDrained(l, a, trace)
    requires Draining(a) ==> forall i | 0 <= i < |more| :: Tolerated(l, a.kind, a.currentPod, more[i])
    ensures RecordDrained(l, a, trace + more)
  {
    hide Tolerated, EndedBefore, Undisturbed;
    if Draining(a) {
      var j: nat :| j < |trace| && StartedBy(a, trace[j]) && Undisturbed(l, trace, j, |trace|)
                    && (a.phase == DeletePod ==> EndedBefore(trace, j, |trace|));
      assert (trace + more)[j] == trace[j];
      UndisturbedExtends(l, trace, more, j);
      if a.phase == DeletePod { EndedBeforeExtends(trace, more, j, |trace|, |trace + more|); }
    }
  }

  lemma DrainedForExtends(l: Losses, trace: seq<Event>, more: seq<Event>, j: nat, i: nat)
    requires i < |trace| && trace[i].DeleteIssued? && DrainedFor(l, trace, j, i)
    ensures (trace + more)[i] == trace[i] && DrainedFor(l, trace + more, j, i)
  {
    hide Tolerated;
    assert forall m | 0 <= m < |trace| :: (trace + more)[m] == trace[m];
    EndedBeforeExtends(trace, more, j, i, i);
  }

  /** Extending the trace with at most one deletion, first and justified, keeps all deletions justified. */
  lemma DeletesDrainedExtends(l: Losses, a: Action, trace: seq<Event>, more: seq<Event>)
    requires DeletesDrained(l, trace) && RecordDrained(l, a, trace)
    requires forall i | 0 <= i < |more| && more[i].DeleteIssued? ::
               i == 0 && a.phase == DeletePod && more[i].pod == a.currentPod && more[i].kind == a.kind
    ensures DeletesDrained(l, trace + more)
  {
    hide Tolerated, EndedBefore, Ends;
    var after := trace + more;
    forall i: nat | i < |after| && after[i].DeleteIssued? ensures exists j: nat :: DrainedFor(l, after, j, i) {
      if i < |trace| {
        var j: nat :| DrainedFor(l, trace, j, i);
        DrainedForExtends(l, trace, more, j, i);
      } else {
        assert after[i] == more[i - |trace|];
        var j: nat :| j < |trace| && StartedBy(a, trace[j]) && Undisturbed(l, trace, j, |trace|) && EndedBefore(trace, j, |trace|);
        EndedBeforeExtends(trace, more, j, |trace|, i);
        assert forall m | 0 <= m < |trace| :: after[m] == trace[m];
        assert DrainedFor(l, after, j, i);
      }
    }
  }

  /** The one or two effects a handler call may have, and the record it then leaves. */
  ghost predicate HandlerShape(a: Action, o: Spec.Outcome)
    requires WellFormed(a)
  {
    match a.phase
    case TriggerDrain =>
      || (o.events == [] && (o.ok ==> !Draining(o.action)))
      || (|o.events| == 1 && o.ok && o.action.phase == WaitDrain && StartedBy(o.action, o.events[0])
          && o.events[0].ordinal == o.action.currentOrdinal)
    case WaitDrain =>
      || (o.events == [] && (o.ok ==> o.action == a || !Draining(o.action)))
      || (|o.events| == 1 && o.ok && o.events[0].DrainEnded? && o.events[0].pod == a.currentPod
          && o.action == a.(phase := DeletePod, drain := o.action.drain)
          && (o.events[0].terminated || o.events[0].restartsSeen > a.initial.restartCount
              || o.events[0].endedAt > a.timer.deadlineAt.value))
    case DeletePod =>
      && (forall i | 0 <= i < |o.events| ::
            || (i == 0 && o.events[i].DeleteIssued? && o.events[i].pod == a.currentPod
                && o.events[i].kind == a.kind && o.events[i].ordinal == a.currentOrdinal)
            || (a.kind == ScaleDown && o.events[i] == ReplicasWritten(a.currentOrdinal)))
      && |o.events| <= (if a.kind == RollingUpdate then 1 else 2)
      && (!o.ok ==> forall i | 0 <= i < |o.events| :: !AcceptedDelete(o.events[i]))
      && (o.ok ==> if a.kind == RollingUpdate then o.action == a.(timer := NO_TIMER, phase := WaitPodReady)
                   else o.action.phase == TriggerDrain)
    case WaitPodReady =>
      || (o.events == [] && (o.ok ==> o.action == a.(timer := o.action.timer)))
      || (o.ok && o.events == [ReadySeen(a.currentPod)] && o.action.phase == WaitBEAlive)
    case _ => o.events == [] && (o.ok ==> !Draining(o.action))
  }

  lemma DrainShape(v: View, a: Action)
    requires a.phase == TriggerDrain && !a.drain.triggered
    ensures var o := Spec.DrainCurrentPod(v, a);
            || (o.events == [] && (o.ok ==> !Draining(o.action)))
            || (|o.events| == 1 && o.ok && o.action.phase == WaitDrain && StartedBy(o.action, o.events[0])
                && o.events[0].kind == a.kind && o.events[0].ordinal == o.action.currentOrdinal)
  {
  }

  lemma TriggerHasShape(est: Sts, v: View, a: Action)
    requires WellFormed(a) && a.phase == TriggerDrain
    ensures HandlerShape(a, Spec.HandleTriggerDrain(est, v, a))
  {
    hide Spec.SelectNextPod, Spec.DrainCurrentPod;
    var r := Spec.RefreshTarget(est, a);
    var s := Spec.SelectNextPod(est, v, r);
    if s.Some? {
      DrainShape(v, r.(currentPod := s.value.pod, currentOrdinal := s.value.ordinal,
                       drain := r.drain.(triggered := false)));
    }
  }

  lemma HandlerHasShape(est: Sts, v: View, a: Action)
    requires WellFormed(a)
    ensures HandlerShape(a, Spec.RunStateMachine(est, v, a))
  {
    hide Spec.HandleTriggerDrain;
    if a.phase == TriggerDrain {
      TriggerHasShape(est, v, a);
    }
  }

  lemma HandlerKeepsDrained(l: Losses, est: Sts, v: View, a: Action, trace: seq<Event>)
    requires WellFormed(a) && RecordDrained(l, a, trace) && DeletesDrained(l, trace)
    ensures var o := Spec.RunStateMachine(est, v, a);
            DeletesDrained(l, trace + o.events) && (o.ok ==> RecordDrained(l, o.action, trace + o.events))
  {
    hide Spec.RunStateMachine, DeletesDrained, EndedBefore, Undisturbed;
    var o := Spec.RunStateMachine(est, v, a);
    HandlerHasShape(est, v, a);
    DeletesDrainedExtends(l, a, trace, o.events);
    var after := trace + o.events;
    if o.ok && Draining(o.action) {
      if Draining(a) {
        RecordDrainedExtends(l, a, trace, o.events);
        if o.action.phase == DeletePod {
          DrainJustEnded(l, a, trace, o.events, o.action);
        }
      } else {
        assert after[|trace|] == o.events[0];
        assert Undisturbed(l, after, |trace|, |after|) by { NothingSince(l, after, |trace|); }
      }
    }
  }

  lemma NothingSince(l: Losses, trace: seq<Event>, j: nat)
    requires |trace| == j + 1 && trace[j].DrainStarted?
    ensures Undisturbed(l, trace, j, |trace|)
  {
  }

  lemma DrainJustEnded(l: Losses, a: Action, trace: seq<Event>, events: seq<Event>, b: Action)
    requires RecordDrained(l, a, trace + events) && Draining(a) && |events| == 1
    requires events[0].DrainEnded? && events[0].pod == a.currentPod && a.timer.deadlineAt.Some?
    requires events[0].terminated || events[0].restartsSeen > a.initial.restartCount
          || events[0].endedAt > a.timer.deadlineAt.value
    requires b == a.(phase := DeletePod, drain := b.drain)
    ensures RecordDrained(l, b, trace + events)
  {
    hide Undisturbed;
    var after := trace + events;
    var j: nat :| j < |after| && StartedBy(a, after[j]) && Undisturbed(l, after, j, |after|);
    assert after[|trace|] == events[0];
    assert Ends(after[j], after[|trace|]);
    assert StartedBy(b, after[j]);
  }

  ghost predicate DrainInvariant(l: Losses, s: State) {
    && RecordInvariant(s)
    && DeletesDrained(l, s.trace)
    && (s.annotation.Encoded? ==> RecordDrained(l, s.annotation.action, s.trace))
  }

  /** A reconcile that does not persist its record only does what the stored record tolerates. */
  lemma LostRecordIsTolerated(l: Losses, i: Input)
    requires i.est.annotation.Encoded? && WellFormed(i.est.annotation.action) && Draining(i.est.annotation.action)
    requires i.st.annotation == NoAnnotation
    requires Within(l, i) && (i.landed ==> !Outcome(i).ok)
    ensures var a := i.est.annotation.action;
            forall k | 0 <= k < |Outcome(i).events| :: Tolerated(l, a.kind, a.currentPod, Outcome(i).events[k])
  {
    hide Spec.RunStateMachine, Acting, Outcome;
    var a := i.est.annotation.action;
    ActingFacts(i, a);
    HandlerHasShape(i.est, i.v, Acting(i, a));
    HandlerKeepsGoal(i.est, i.v, Acting(i, a));
    OutcomeIsHandlers(i);
  }

  lemma OutcomeIsHandlers(i: Input)
    requires i.est.annotation.Encoded? && i.st.annotation == NoAnnotation
    ensures var o := Spec.RunStateMachine(i.est, i.v, Acting(i, i.est.annotation.action));
            && Outcome(i).events == o.events
            && (!o.ok ==> !Outcome(i).ok)
            && (Outcome(i).cleared || (o.ok && !Outcome(i).ok) ==> o.action.phase == Done)
            && (o.ok && Outcome(i).ok ==> Outcome(i).cleared || Outcome(i).st.annotation == Encoded(o.action))
            && (!Outcome(i).ok ==> !Outcome(i).cleared && Outcome(i).st == i.st)
            && (Outcome(i).cleared ==> Outcome(i).st.annotation == NoAnnotation)
            && (Outcome(i).skipApply <==> !Outcome(i).cleared)
            && (Outcome(i).st.replicas == i.st.replicas || Outcome(i).st.replicas == i.est.replicas)
            && (o.ok && o.action.phase != Done && o.action.kind == ScaleDown ==> Outcome(i).st.replicas == i.est.replicas)
  {
    hide Spec.RunStateMachine, Spec.SelectOutdated, Detect;
  }

  lemma ActingDrained(l: Losses, i: Input, stored: Action, trace: seq<Event>)
    requires WellFormed(stored) && RecordDrained(l, stored, trace)
    ensures RecordDrained(l, Acting(i, stored), trace)
  {
    hide Acting, Undisturbed, EndedBefore;
    ActingFacts(i, stored);
    var a := Acting(i, stored);
    if Draining(a) {
      var j: nat :| j < |trace| && StartedBy(stored, trace[j]) && Undisturbed(l, trace, j, |trace|)
                    && (stored.phase == DeletePod ==> EndedBefore(trace, j, |trace|));
      assert StartedBy(a, trace[j]);
    }
  }

  /** The group's phase is carried along without influence. */
  lemma PhaseIsCarried(i: Input, phase: ScaleIn.GroupPhase)
    ensures var r := GracefulReconcile(i.st, i.est, i.v, phase); r == Outcome(i).(phase := r.phase)
  {
    hide Spec.RunStateMachine, Spec.SelectOutdated, Detect, SentinelSupported, ShouldFinalize;
  }

  lemma StepKeepsDrained(l: Losses, s: State, s': State, i: Input)
    requires Step(s, s', i) && DrainInvariant(l, s) && Within(l, i)
    ensures DrainInvariant(l, s')
  {
    hide Spec.SelectNextPod, Spec.RunStateMachine, Spec.SelectOutdated, Within, DeletesDrained, Acting, Tolerated, Undisturbed,
         EndedBefore;
    StepKeepsRecord(s, s', i);
    if s.annotation.Encoded? {
      var stored := s.annotation.action;
      hide GracefulReconcile, RecordDrained;
      ActingFacts(i, stored);
      ActingDrained(l, i, stored, s.trace);
      HandlerKeepsDrained(l, i.est, i.v, Acting(i, stored), s.trace);
      OutcomeIsHandlers(i);
      if !(i.landed && Outcome(i).ok) && s'.annotation.Encoded? {
        if Draining(stored) { LostRecordIsTolerated(l, i); }
        RecordDrainedExtends(l, stored, s.trace, Outcome(i).events);
      }
    } else {
      assert s.trace + [] == s.trace;
    }
  }

  lemma {:induction false} RunKeepsDrained(l: Losses, states: seq<State>, inputs: seq<Input>, n: nat)
    requires Run(states, inputs) && n < |states|
    requires forall k | 0 <= k < n :: Within(l, inputs[k])
    ensures DrainInvariant(l, states[n])
  {
    hide Within;
    if n > 0 {
      RunKeepsDrained(l, states, inputs, n - 1);
      StepKeepsDrained(l, states[n - 1], states[n], inputs[n - 1]);
    }
  }

  /** Over every run, every pod deletion comes after a drain attempt j on the same pod by the same action,
      and after the end k of that very drain: the BE container was seen terminated, its restart count above
      the one recorded when the drain started, or the clock past the start plus the grace period. Between
      the drain and the deletion there is no other drain and no accepted deletion, but for what the lost
      records account for: the drain of a pre-empting scale-down, and a deletion of the same pod. */
  lemma DrainBeforeDelete(l: Losses, states: seq<State>, inputs: seq<Input>, n: nat, i: nat) returns (j: nat, k: nat)
    requires Run(states, inputs) && n < |states|
    requires forall m | 0 <= m < n :: Within(l, inputs[m])
    requires i < |states[n].trace| && states[n].trace[i].DeleteIssued?
    ensures var t := states[n].trace;
            && j < k < i && Ends(t[j], t[k])
            && t[j].pod == t[i].pod && t[j].kind == t[i].kind
            && forall m | j < m < i :: Tolerated(l, t[i].kind, t[i].pod, t[m])
  {
    hide Within, Tolerated, Ends;
    RunKeepsDrained(l, states, inputs, n);
    var trace := states[n].trace;
    j :| DrainedFor(l, trace, j, i);
    k :| j < k < i && Ends(trace[j], trace[k]);
  }

  /** In every run that persists the record of each reconcile that had a pod deleted, a drain of the pod
      lies between any two accepted deletions of it, and that drain ended before the second. */
  lemma DrainBetweenDeletes(states: seq<State>, inputs: seq<Input>, n: nat, i1: nat, i2: nat) returns (j: nat, k: nat)
    requires Run(states, inputs) && n < |states|
    requires forall m | 0 <= m < n :: DeletesPod(inputs[m]) ==> inputs[m].landed
    requires i1 < i2 < |states[n].trace| && AcceptedDelete(states[n].trace[i1]) && states[n].trace[i2].DeleteIssued?
    requires states[n].trace[i1].pod == states[n].trace[i2].pod
    ensures i1 < j < k < i2 && Ends(states[n].trace[j], states[n].trace[k]) && states[n].trace[j].pod == states[n].trace[i2].pod
  {
    j, k := DrainBeforeDelete(Losses(true, false), states, inputs, n, i2);
  }
}
