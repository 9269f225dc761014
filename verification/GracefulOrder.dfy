/** The order in which the graceful rollout touches pods, over every run. */
module GracefulOrder {
  import opened Wrappers
  import opened GracefulTypes
  import opened GracefulRollout
  import opened GracefulRuns
  import Spec = GracefulSpec
  import PodNames

  // ----- no other pod is drained between a pod's drain and its deletion

  /** Deletions may be lost, pre-emptions may not. */
  const NO_LOST_PREEMPTION := Losses(false, true)

  /** In every run that never loses the record of a pre-empting reconcile, the last drain attempt before
      a deletion was on the deleted pod, and it ended before the deletion. */
  lemma LastDrainEndsBeforeDelete(states: seq<State>, inputs: seq<Input>, n: nat, i: nat) returns (j: nat, k: nat)
    requires Run(states, inputs) && n < |states|
    requires forall m | 0 <= m < n :: Preempts(inputs[m]) ==> inputs[m].landed
    requires i < |states[n].trace| && states[n].trace[i].DeleteIssued?
    ensures var t := states[n].trace;
            && j < k < i && Ends(t[j], t[k]) && t[j].pod == t[i].pod
            && forall m | j < m < i :: !t[m].DrainStarted?
  {
    hide DeletesPod;
    j, k := DrainBeforeDelete(NO_LOST_PREEMPTION, states, inputs, n, i);
  }

  /** The reconcile lets a scale-down take over from a rolling update that has a pod drained or about to be
      deleted, and drains another pod. */
  ghost predicate PreemptsDrain(s: State, i: Input) {
    && s.annotation.Encoded? && s.annotation.action.kind == RollingUpdate && Draining(s.annotation.action)
    && Preempts(i)
    && PodNames.PodName(i.est.name, i.est.replicas - 1) in i.v.pods && !i.v.podReadFails
    && PodNames.PodName(i.est.name, i.est.replicas - 1) != s.annotation.action.currentPod
  }

  ghost predicate Touches(e: Event) { e.DrainStarted? || e.DeleteIssued? }

  /** The first drain or deletion from position n on is the deletion at p. */
  ghost predicate FirstTouchDeletes(trace: seq<Event>, n: nat, p: nat) {
    n <= p < |trace| && trace[p].DeleteIssued? && forall m | n <= m < p :: !Touches(trace[m])
  }

  lemma DrainsHighest(i: Input, a: Action)
    requires WellFormed(a) && a.kind == ScaleDown && a.phase == TriggerDrain && a.desiredReplicas == Some(i.st.replicas)
    requires i.st.replicas < i.est.replicas
    requires PodNames.PodName(i.est.name, i.est.replicas - 1) in i.v.pods && !i.v.podReadFails
    ensures var o := Spec.RunStateMachine(i.est, i.v, a);
            && o.ok && o.action.phase == WaitDrain && |o.events| == 1
            && o.events[0].DrainStarted? && o.events[0].kind == ScaleDown
            && o.events[0].pod == PodNames.PodName(i.est.name, i.est.replicas - 1)
  {
    hide PodNames.PodName, Spec.SelectOutdated;
  }

  /** What the pre-empting reconcile leaves. */
  lemma PreemptionDrains(s: State, s1: State, i: Input)
    requires RecordInvariant(s) && Step(s, s1, i) && PreemptsDrain(s, i)
    ensures |s1.trace| == |s.trace| + 1 && s1.trace[..|s.trace|] == s.trace
    ensures var d := s1.trace[|s.trace|];
            d.DrainStarted? && d.kind == ScaleDown && d.pod == PodNames.PodName(i.est.name, i.est.replicas - 1)
    ensures !i.landed ==> s1.annotation == s.annotation
  {
    hide Spec.RunStateMachine, Acting, PodNames.PodName, GracefulReconcile;
    ActingFacts(i, s.annotation.action);
    DrainsHighest(i, Acting(i, s.annotation.action));
    OutcomeIsHandlers(i);
  }

  ghost predicate ScaleDownDraining(s: State) {
    s.annotation.Encoded? && s.annotation.action.kind == ScaleDown && Draining(s.annotation.action)
  }

  lemma {:induction false} TraceGrows(states: seq<State>, inputs: seq<Input>, n: nat, m: nat)
    requires Run(states, inputs) && n <= m < |states|
    ensures |states[n].trace| <= |states[m].trace| && states[m].trace[..|states[n].trace|] == states[n].trace
  {
    hide Outcome;
    if n < m {
      TraceGrows(states, inputs, n, m - 1);
      assert Step(states[m - 1], states[m], inputs[m - 1]);
    }
  }

  /** A reconcile without a stored action does nothing to pods. */
  lemma StartIsQuiet(i: Input)
    requires !i.est.annotation.Encoded? && i.st.annotation == NoAnnotation
    ensures Outcome(i).events == [] && !Outcome(i).cleared
    ensures Outcome(i).st.annotation.Encoded? ==> Outcome(i).st.annotation.action.phase == TriggerDrain
  {
    hide Spec.SelectOutdated, Spec.SelectNextPod;
  }

  /** A scale-down starts draining only with a drain. */
  lemma StepStartsDraining(s: State, s': State, i: Input)
    requires Step(s, s', i) && RecordInvariant(s) && !ScaleDownDraining(s)
    ensures |s.trace| <= |s'.trace| && s'.trace[..|s.trace|] == s.trace
    ensures ScaleDownDraining(s') ==> |s'.trace| > |s.trace| && s'.trace[|s.trace|].DrainStarted?
    ensures forall p | |s.trace| <= p < |s'.trace| && s'.trace[p].DeleteIssued? :: s'.trace[p].kind == RollingUpdate
  {
    hide Spec.RunStateMachine, Spec.SelectOutdated, Acting, GracefulReconcile;
    if s.annotation.Encoded? {
      var a := Acting(i, s.annotation.action);
      ActingFacts(i, s.annotation.action);
      HandlerHasShape(i.est, i.v, a);
      HandlerKeepsGoal(i.est, i.v, a);
      OutcomeIsHandlers(i);
    } else {
      StartIsQuiet(i);
    }
  }

  lemma {:induction false} NotYetDraining(states: seq<State>, inputs: seq<Input>, n: nat, m: nat)
    requires Run(states, inputs) && n <= m < |states| && !ScaleDownDraining(states[n])
    requires forall p | |states[n].trace| <= p < |states[m].trace| :: !Touches(states[m].trace[p])
    ensures !ScaleDownDraining(states[m])
  {
    hide Step, ScaleDownDraining;
    if n < m {
      assert Step(states[m - 1], states[m], inputs[m - 1]);
      TraceGrows(states, inputs, n, m - 1);
      TraceGrows(states, inputs, m - 1, m);
      assert forall p | 0 <= p < |states[m - 1].trace| :: states[m - 1].trace[p] == states[m].trace[p];
      NotYetDraining(states, inputs, n, m - 1);
      RecordIsWellFormed(states, inputs, m - 1);
      StepStartsDraining(states[m - 1], states[m], inputs[m - 1]);
    }
  }

  lemma {:induction false} FirstDeleteIsRolling(states: seq<State>, inputs: seq<Input>, n: nat, m: nat, p: nat)
    requires Run(states, inputs) && n <= m < |states| && !ScaleDownDraining(states[n])
    requires FirstTouchDeletes(states[m].trace, |states[n].trace|, p)
    ensures states[m].trace[p].kind == RollingUpdate
  {
    hide Step, ScaleDownDraining;
    if n < m {
      assert Step(states[m - 1], states[m], inputs[m - 1]);
      TraceGrows(states, inputs, n, m - 1);
      TraceGrows(states, inputs, m - 1, m);
      assert forall q | 0 <= q < |states[m - 1].trace| :: states[m - 1].trace[q] == states[m].trace[q];
      if p < |states[m - 1].trace| {
        FirstDeleteIsRolling(states, inputs, n, m - 1, p);
      } else {
        NotYetDraining(states, inputs, n, m - 1);
        RecordIsWellFormed(states, inputs, m - 1);
        StepStartsDraining(states[m - 1], states[m], inputs[m - 1]);
      }
    }
  }

  /** The drain a rolling update's deletion belongs to is the one its record stood for before a scale-down's
      drain came between. */
  lemma SameRollingDrain(a: Action, trace: seq<Event>, n: nat, p: nat)
    requires n < p < |trace| && RecordDrained(ANY_LOSS, a, trace[..n]) && Draining(a) && a.kind == RollingUpdate
    requires trace[n].DrainStarted? && trace[n].kind == ScaleDown && FirstTouchDeletes(trace, n + 1, p)
    requires trace[p].kind == RollingUpdate && DeletesDrained(ANY_LOSS, trace)
    ensures trace[p].pod == a.currentPod
  {
    hide EndedBefore;
    var j: nat :| j < n && StartedBy(a, trace[..n][j]) && Undisturbed(ANY_LOSS, trace[..n], j, n);
    assert trace[..n][j] == trace[j];
    assert forall m | j < m < n :: trace[..n][m] == trace[m];
    var k: nat :| DrainedFor(ANY_LOSS, trace, k, p);
    assert k == n || k > n || trace[..n][k] == trace[k];
  }

  /** When the pre-empting record is lost, the next pod touched being a deletion, it is the rolling update's
      pod that is deleted, and the drain before that is the other pod's. */
  lemma LostPreemptionDrainsAnotherPod(states: seq<State>, inputs: seq<Input>, n: nat, m: nat, p: nat)
    requires Run(states, inputs) && n < m < |states| && PreemptsDrain(states[n], inputs[n]) && !inputs[n].landed
    requires FirstTouchDeletes(states[m].trace, |states[n + 1].trace|, p)
    ensures var trace, d := states[m].trace, |states[n].trace|;
            && d < p && trace[d].DrainStarted? && (forall q | d < q < p :: !trace[q].DrainStarted?)
            && trace[p].pod == states[n].annotation.action.currentPod != trace[d].pod
            && trace[p].kind == RollingUpdate && trace[d].kind == ScaleDown
  {
    hide Step, PodNames.PodName, Preempts, Within;
    var a, trace, d := states[n].annotation.action, states[m].trace, |states[n].trace|;
    assert Step(states[n], states[n + 1], inputs[n]);
    RecordIsWellFormed(states, inputs, n);
    PreemptionDrains(states[n], states[n + 1], inputs[n]);
    TraceGrows(states, inputs, n, m);
    TraceGrows(states, inputs, n + 1, m);
    assert trace[d] == states[n + 1].trace[d];
    FirstDeleteIsRolling(states, inputs, n + 1, m, p);
    AllWithinAnyLoss(inputs);
    RunKeepsDrained(ANY_LOSS, states, inputs, n);
    RunKeepsDrained(ANY_LOSS, states, inputs, m);
    SameRollingDrain(a, trace, d, p);
  }

  lemma AllWithinAnyLoss(inputs: seq<Input>)
    ensures forall k | 0 <= k < |inputs| :: Within(ANY_LOSS, inputs[k])
  {
  }

  /** The condition is exact. When a scale-down pre-empts a rolling update's drain or deletion, every other
      pre-empting record lands, and the next touch of a pod is a deletion, the order of drains and deletions
      is kept if and only if the pre-empting record lands. */
  lemma OrderNeedsLandedPreemption(states: seq<State>, inputs: seq<Input>, n: nat, m: nat, p: nat)
    requires Run(states, inputs) && n < m < |states| && PreemptsDrain(states[n], inputs[n])
    requires forall k | 0 <= k < m && k != n && Preempts(inputs[k]) :: inputs[k].landed
    requires FirstTouchDeletes(states[m].trace, |states[n + 1].trace|, p)
    ensures DeletesDrained(NO_LOST_PREEMPTION, states[m].trace) <==> inputs[n].landed
  {
    hide Step, PodNames.PodName, Preempts, DeletesPod, EndedBefore;
    if inputs[n].landed {
      RunKeepsDrained(NO_LOST_PREEMPTION, states, inputs, m);
    } else {
      LostPreemptionDrainsAnotherPod(states, inputs, n, m, p);
      var trace, d := states[m].trace, |states[n].trace|;
      if j: nat :| DrainedFor(NO_LOST_PREEMPTION, trace, j, p) {
        assert false;
      }
    }
  }

  // ----- a pod is deleted twice after one drain

  /** A reconcile deletes the record's pod, and at the next one, which is not pre-empted either, a pod of
      that name is there again. */
  ghost predicate DeletesAndReturns(s: State, i: Input, i2: Input) {
    && s.annotation.Encoded? && s.annotation.action.phase == DeletePod
    && !Preempts(i) && s.annotation.action.currentPod in i.v.pods && !i.v.podReadFails && i.v.deleteOutcome == Accepted
    && !Preempts(i2) && s.annotation.action.currentPod in i2.v.pods && !i2.v.podReadFails
  }

  lemma DeletesCurrent(i: Input, a: Action)
    requires WellFormed(a) && a.phase == DeletePod && a.currentPod in i.v.pods && !i.v.podReadFails
    ensures var o := Spec.RunStateMachine(i.est, i.v, a);
            && o.events != [] && o.events[0].DeleteIssued? && o.events[0].pod == a.currentPod
            && o.events[0].outcome == i.v.deleteOutcome
            && (i.v.deleteOutcome == Accepted ==> o.ok && !Draining(o.action) && o.action.phase != Done)
  {
  }

  /** The recreated pod is deleted by the next reconcile, without a drain, if and only if the record of the
      deletion was lost: the pod's UID is never compared. */
  lemma RedeletesIffRecordLost(s: State, s1: State, s2: State, i: Input, i2: Input)
    requires RecordInvariant(s) && Step(s, s1, i) && Step(s1, s2, i2) && DeletesAndReturns(s, i, i2)
    ensures |s1.trace| > |s.trace| && AcceptedDelete(s1.trace[|s.trace|])
    ensures s1.trace[|s.trace|].pod == s.annotation.action.currentPod
    ensures forall q | |s.trace| <= q < |s1.trace| :: !s1.trace[q].DrainStarted?
    ensures !i.landed <==> |s2.trace| > |s1.trace| && s2.trace[|s1.trace|].DeleteIssued?
    ensures !i.landed ==> s2.trace[|s1.trace|].pod == s.annotation.action.currentPod
  {
    hide Spec.RunStateMachine, Acting, GracefulReconcile;
    var a := s.annotation.action;
    ActingFacts(i, a);
    DeletesCurrent(i, Acting(i, a));
    HandlerHasShape(i.est, i.v, Acting(i, a));
    OutcomeIsHandlers(i);
    StepKeepsRecord(s, s1, i);
    OutcomeIsHandlers(i2);
    var b := s1.annotation.action;
    ActingFacts(i2, b);
    if i.landed {
      HandlerHasShape(i2.est, i2.v, Acting(i2, b));
    } else {
      DeletesCurrent(i2, Acting(i2, b));
    }
  }

  /** Pre-emptions may be lost, deletions may not. */
  const NO_LOST_DELETION := Losses(true, false)

  /** So exactly the lost record of a deletion breaks the rule that a drain lies between two deletions. */
  lemma DrainBetweenNeedsLandedDeletion(s: State, s1: State, s2: State, i: Input, i2: Input)
    requires DrainInvariant(NO_LOST_DELETION, s) && Step(s, s1, i) && Step(s1, s2, i2) && DeletesAndReturns(s, i, i2)
    ensures DeletesDrained(NO_LOST_DELETION, s2.trace) <==> i.landed
  {
    hide Spec.RunStateMachine, Acting, GracefulReconcile, EndedBefore, DeletesDrained, RecordDrained, DeletesPod;
    RedeletesIffRecordLost(s, s1, s2, i, i2);
    if i.landed {
      StepKeepsDrained(NO_LOST_DELETION, s, s1, i);
      LandedDeletionIsQuiet(s, s1, i, i2);
      StepKeepsDrained(NO_LOST_DELETION, s1, s2, i2);
    } else {
      assert forall m | 0 <= m < |s1.trace| :: s2.trace[m] == s1.trace[m];
      SecondDeleteUndrained(s2.trace, |s.trace|, |s1.trace|);
    }
  }

  lemma LandedDeletionIsQuiet(s: State, s1: State, i: Input, i2: Input)
    requires RecordInvariant(s) && Step(s, s1, i) && i.landed && DeletesAndReturns(s, i, i2)
    requires i2.st.annotation == NoAnnotation && i2.est.annotation == s1.annotation
    ensures !DeletesPod(i2)
  {
    hide Spec.RunStateMachine, Acting, GracefulReconcile;
    var a := s.annotation.action;
    ActingFacts(i, a);
    DeletesCurrent(i, Acting(i, a));
    OutcomeIsHandlers(i);
    StepKeepsRecord(s, s1, i);
    var b := s1.annotation.action;
    ActingFacts(i2, b);
    HandlerHasShape(i2.est, i2.v, Acting(i2, b));
    OutcomeIsHandlers(i2);
  }

  lemma SecondDeleteUndrained(trace: seq<Event>, p: nat, q: nat)
    requires p < q < |trace| && AcceptedDelete(trace[p]) && trace[q].DeleteIssued?
    requires forall m | p <= m < q :: !trace[m].DrainStarted?
    ensures !DeletesDrained(NO_LOST_DELETION, trace)
  {
    hide EndedBefore;
    if j: nat :| DrainedFor(NO_LOST_DELETION, trace, j, q) {
      assert false;
    }
  }

  // ----- one pod at a time

  function UnseenAfter(before: set<string>, e: Event): set<string> {
    if e.DeleteIssued? then before + {e.pod}
    else if e.ReadySeen? then before - {e.pod}
    else before
  }

  /** The pods deleted and not yet seen Ready again. */
  function Unseen(trace: seq<Event>): set<string> {
    if trace == [] then {} else UnseenAfter(Unseen(trace[..|trace| - 1]), trace[|trace| - 1])
  }

  lemma UnseenOne(trace: seq<Event>, e: Event)
    ensures Unseen(trace + [e]) == UnseenAfter(Unseen(trace), e)
  {
    assert (trace + [e])[..|trace|] == trace;
  }

  /** A deleted pod leaves the set only by being seen Ready. */
  lemma {:induction false} LeftUnseenMeansReady(trace: seq<Event>, n: nat, i: nat) returns (k: nat)
    requires i < n <= |trace| && trace[i].DeleteIssued? && trace[i].pod !in Unseen(trace[..n])
    ensures i < k < n && trace[k] == ReadySeen(trace[i].pod)
  {
    assert trace[..n][..n - 1] == trace[..n - 1];
    if trace[n - 1] == ReadySeen(trace[i].pod) {
      k := n - 1;
    } else {
      k := LeftUnseenMeansReady(trace, n - 1, i);
    }
  }

  /** Draining a pod needs every deleted pod back; deleting one needs every other deleted pod back. */
  ghost predicate TouchesOneAtATime(trace: seq<Event>) {
    forall j | 0 <= j < |trace| ::
      && (trace[j].DrainStarted? ==> Unseen(trace[..j]) == {})
      && (trace[j].DeleteIssued? ==> Unseen(trace[..j]) <= {trace[j].pod})
  }

  predicate AwaitsReplacement(a: Action) { a.phase == DeletePod || a.phase == WaitPodReady }

  ghost predicate OneAtATimeInvariant(s: State) {
    && RecordInvariant(s)
    && TouchesOneAtATime(s.trace)
    && (s.annotation.Encoded? ==> s.annotation.action.kind == RollingUpdate)
    && Unseen(s.trace) <= if s.annotation.Encoded? && AwaitsReplacement(s.annotation.action)
                          then {s.annotation.action.currentPod} else {}
  }

  lemma TouchesMore(trace: seq<Event>, e: Event)
    requires TouchesOneAtATime(trace)
    requires e.DrainStarted? ==> Unseen(trace) == {}
    requires e.DeleteIssued? ==> Unseen(trace) <= {e.pod}
    ensures TouchesOneAtATime(trace + [e])
  {
    hide Unseen;
    var after := trace + [e];
    assert forall j | 0 <= j <= |trace| :: after[..j] == trace[..j];
    assert trace[..|trace|] == trace;
  }

  lemma HandlerKeepsOneAtATime(est: Sts, v: View, a: Action, trace: seq<Event>)
    requires WellFormed(a) && a.kind == RollingUpdate && TouchesOneAtATime(trace)
    requires Unseen(trace) <= if AwaitsReplacement(a) then {a.currentPod} else {}
    ensures var o := Spec.RunStateMachine(est, v, a); var after := trace + o.events;
            && TouchesOneAtATime(after)
            && Unseen(after) <= (if AwaitsReplacement(a) then {a.currentPod} else {})
            && (o.ok ==> o.action.kind == RollingUpdate
                         && Unseen(after) <= if AwaitsReplacement(o.action) then {o.action.currentPod} else {})
  {
    hide Spec.RunStateMachine, Unseen, TouchesOneAtATime, WellFormed;
    HandlerHasShape(est, v, a);
    HandlerKeepsGoal(est, v, a);
    var o := Spec.RunStateMachine(est, v, a);
    if o.events == [] {
      assert trace + o.events == trace;
    } else {
      assert |o.events| == 1;
      assert o.events == [o.events[0]];
      UnseenOne(trace, o.events[0]);
      TouchesMore(trace, o.events[0]);
    }
  }

  lemma StepKeepsOneAtATime(s: State, s': State, i: Input)
    requires Step(s, s', i) && OneAtATimeInvariant(s)
    requires i.st.replicas >= i.est.replicas
    ensures OneAtATimeInvariant(s')
  {
    hide Spec.SelectNextPod, Spec.RunStateMachine, Spec.SelectOutdated, TouchesOneAtATime, Unseen;
    StepKeepsRecord(s, s', i);
    if s.annotation.Encoded? {
      var stored := s.annotation.action;
      ActingFacts(i, stored);
      HandlerKeepsOneAtATime(i.est, i.v, Acting(i, stored), s.trace);
    } else {
      assert s.trace + [] == s.trace;
    }
  }

  lemma StartsOneAtATime(s: State)
    requires s == State(NoAnnotation, [])
    ensures OneAtATimeInvariant(s)
  {
  }

  lemma {:induction false} RunKeepsOneAtATime(states: seq<State>, inputs: seq<Input>, n: nat)
    requires Run(states, inputs) && n < |states|
    requires forall k | 0 <= k < n :: inputs[k].st.replicas >= inputs[k].est.replicas
    ensures OneAtATimeInvariant(states[n])
  {
    hide Step, OneAtATimeInvariant;
    if n == 0 { StartsOneAtATime(states[0]); }
    if n > 0 {
      RunKeepsOneAtATime(states, inputs, n - 1);
      assert Step(states[n - 1], states[n], inputs[n - 1]);
      StepKeepsOneAtATime(states[n - 1], states[n], inputs[n - 1]);
    }
  }

  /** In every run without a scale-down, conflicting writes and errors included: between deleting one
      pod and draining or deleting another there is a reconcile that saw a pod of the first name Ready. */
  lemma OnePodAtATime(states: seq<State>, inputs: seq<Input>, n: nat, i: nat, j: nat) returns (k: nat)
    requires Run(states, inputs) && n < |states|
    requires forall k | 0 <= k < n :: inputs[k].st.replicas >= inputs[k].est.replicas
    requires i < j < |states[n].trace| && states[n].trace[i].DeleteIssued?
    requires states[n].trace[j].DrainStarted? || states[n].trace[j].DeleteIssued?
    requires states[n].trace[j].pod != states[n].trace[i].pod
    ensures i < k < j && states[n].trace[k] == ReadySeen(states[n].trace[i].pod)
  {
    RunKeepsOneAtATime(states, inputs, n);
    k := LeftUnseenMeansReady(states[n].trace, j, i);
  }

  /** The wait for a replacement pod never gives up: a successful call stays in WaitPodReady with a
      deadline no earlier than before, or it saw the pod Ready. */
  lemma WaitPodReadyNeverForces(v: View, a: Action)
    requires a.phase == WaitPodReady
    ensures var o := Spec.HandleWaitPodReady(v, a);
            o.ok ==>
              if a.currentPod in v.pods && v.pods[a.currentPod].ready
              then o.action.phase == WaitBEAlive && o.events == [ReadySeen(a.currentPod)]
              else
                && o.action == a.(timer := o.action.timer) && o.events == []
                && o.action.timer.deadlineAt.Some?
                && (a.timer.deadlineAt.Some? ==> o.action.timer.deadlineAt.value >= a.timer.deadlineAt.value)
  {
  }

  // ----- the floor of a scale-down

  /** No effect of a scale-down to `floor` replicas touches an ordinal below it. */
  predicate AboveFloor(e: Event, floor: int) {
    && ((e.DrainStarted? || e.DeleteIssued?) && e.kind == ScaleDown ==> e.ordinal >= floor)
    && (e.ReplicasWritten? ==> e.replicas >= floor)
  }

  ghost predicate FloorInvariant(s: State, floor: int) {
    && RecordInvariant(s)
    && (s.annotation.Encoded? && s.annotation.action.kind == ScaleDown ==>
          s.annotation.action.desiredReplicas == Some(floor))
    && forall e | e in s.trace :: AboveFloor(e, floor)
  }

  lemma HandlerKeepsFloor(est: Sts, v: View, a: Action, floor: int)
    requires WellFormed(a) && (a.kind == ScaleDown ==> a.desiredReplicas == Some(floor))
    ensures forall e | e in Spec.RunStateMachine(est, v, a).events :: AboveFloor(e, floor)
  {
    hide Spec.RunStateMachine;
    HandlerHasShape(est, v, a);
    HandlerKeepsWellFormed(est, v, a);
    HandlerKeepsGoal(est, v, a);
  }

  lemma StepKeepsFloor(s: State, s': State, i: Input, floor: int)
    requires Step(s, s', i) && FloorInvariant(s, floor) && i.st.replicas == floor
    ensures FloorInvariant(s', floor)
  {
    hide Spec.SelectNextPod, Spec.RunStateMachine, Spec.SelectOutdated;
    StepKeepsRecord(s, s', i);
    if s.annotation.Encoded? {
      var stored := s.annotation.action;
      ActingFacts(i, stored);
      HandlerKeepsFloor(i.est, i.v, Acting(i, stored), floor);
      HandlerKeepsGoal(i.est, i.v, Acting(i, stored));
    }
  }

  /** With the desired replica count fixed, in every run a scale-down never drains or deletes a pod,
      nor writes a replica count, below the desired count. */
  lemma {:induction false} ScaleDownStaysAboveFloor(states: seq<State>, inputs: seq<Input>, n: nat, floor: int)
    requires Run(states, inputs) && n < |states|
    requires forall k | 0 <= k < n :: inputs[k].st.replicas == floor
    ensures FloorInvariant(states[n], floor)
  {
    if n > 0 {
      ScaleDownStaysAboveFloor(states, inputs, n - 1, floor);
      StepKeepsFloor(states[n - 1], states[n], inputs[n - 1], floor);
    }
  }
}
