/** How a rolling update comes to count as Done, and that it may then stay Done with outdated pods. */
module DoneRuns {
  import opened Wrappers
  import opened GracefulTypes
  import opened GracefulRollout
  import opened GracefulRuns
  import Spec = GracefulSpec
  import PodNames
  import RollingRun

  /** The revision a rolling update's pods are compared with: the StatefulSet's, once it has one. */
  function Target(est: Sts, a: Action): string {
    if est.updateRevision != "" then est.updateRevision else a.targetRevision
  }

  /** No pod is seen outdated: a list that failed shows none. */
  predicate NoneOutdated(listed: Option<seq<Pod>>, target: string) {
    listed.None? || forall p | p in listed.value :: p.revision == target
  }

  lemma SelectsNothingIff(est: Sts, v: View, a: Action)
    ensures Spec.SelectOutdated(est, v, a).None? <==> NoneOutdated(v.listed, Spec.EffectiveTarget(est, a))
  {
    hide PodNames.OrdinalOf, PodNames.Int32;
    if v.listed.Some? {
      hide Spec.SelectOutdated;
      var pod := RollingRun.SelectsHighestOutdated(est, v, a);
    }
  }

  ghost predicate StoresRolling(s: State, phase: Phase) {
    && s.annotation.Encoded? && WellFormed(s.annotation.action)
    && s.annotation.action.kind == RollingUpdate && s.annotation.action.phase == phase
  }

  // ----- becoming Done

  lemma TriggerFinishesIff(est: Sts, v: View, a: Action)
    requires WellFormed(a) && a.kind == RollingUpdate && a.phase == TriggerDrain && Target(est, a) != ""
    ensures var o := Spec.RunStateMachine(est, v, Spec.RefreshTarget(est, a));
            (o.ok && o.action.phase == Done) <==> NoneOutdated(v.listed, Target(est, a))
    ensures var o := Spec.RunStateMachine(est, v, Spec.RefreshTarget(est, a));
            o.ok && o.action.phase == Done ==> o.events == [] && o.action == Spec.RefreshTarget(est, a).(phase := Done)
  {
    hide Spec.SelectOutdated;
    SelectsNothingIff(est, v, Spec.RefreshTarget(est, a));
  }

  /** Without a scale-down in between, a rolling update that is to pick its next pod is stored as Done or
      cleared if and only if the pod list failed or showed every pod at the target. */
  lemma FinishesIff(s: State, s': State, i: Input)
    requires Step(s, s', i) && i.landed && StoresRolling(s, TriggerDrain)
    requires i.st.replicas >= i.est.replicas && Target(i.est, s.annotation.action) != ""
    requires i.v.finalizeFails ==> !NoneOutdated(i.v.finalList, Target(i.est, s.annotation.action))
    ensures (StoresRolling(s', Done) || s'.annotation == NoAnnotation)
       <==> NoneOutdated(i.v.listed, Target(i.est, s.annotation.action))
    ensures NoneOutdated(i.v.listed, Target(i.est, s.annotation.action)) ==>
              && s'.trace == s.trace
              && (s'.annotation == NoAnnotation <==> NoneOutdated(i.v.finalList, Target(i.est, s.annotation.action)))
  {
    hide Spec.RunStateMachine, Spec.SelectOutdated;
    var a := s.annotation.action;
    StaysActing(i, a);
    TriggerFinishesIff(i.est, i.v, a);
    StepKeepsRecord(s, s', i);
    var o := Spec.RunStateMachine(i.est, i.v, Acting(i, a));
    HandlerKeepsGoal(i.est, i.v, Acting(i, a));
    SelectsNothingIff(i.est, i.v.(listed := i.v.finalList), o.action);
  }

  lemma StaysActing(i: Input, a: Action)
    requires WellFormed(a) && a.kind == RollingUpdate && i.st.replicas >= i.est.replicas
    ensures Acting(i, a) == Spec.RefreshTarget(i.est, a) && Preempt(a, Detect(i.st, i.est, i.v)) == a
  {
    hide Spec.SelectOutdated;
  }

  // ----- staying Done

  /** When a reconcile ends a Done rolling update: it is pre-empted, or it is cleared. */
  predicate LeavesDone(i: Input, a: Action) {
    if i.st.replicas < i.est.replicas then i.landed && !i.v.podReadFails
    else !i.v.finalizeFails && NoneOutdated(i.v.finalList, Target(i.est, a))
  }

  lemma FreshScaleDownOk(i: Input, a: Action)
    requires a == FreshAction(ScaleDown, "", Some(i.st.replicas)) && i.st.replicas < i.est.replicas
    ensures var o := Spec.RunStateMachine(i.est, i.v, a);
            && (o.ok <==> !i.v.podReadFails) && o.action.kind == ScaleDown && (o.ok ==> o.action.phase != Done)
  {
    hide PodNames.PodName;
  }

  lemma PreemptsDone(i: Input, a: Action)
    requires WellFormed(a) && a.kind == RollingUpdate && i.st.replicas < i.est.replicas
    ensures Acting(i, a) == FreshAction(ScaleDown, "", Some(i.st.replicas))
  {
  }

  lemma DoneIsIdle(est: Sts, v: View, a: Action)
    requires a.phase == Done
    ensures Spec.RunStateMachine(est, v, a) == Spec.Outcome(a, [], true)
  {
  }

  /** A stored Done rolling update stays stored and Done if and only if the reconcile does not leave it, and
      while no scale-down comes it does nothing. */
  lemma StaysDoneIff(s: State, s': State, i: Input)
    requires Step(s, s', i) && StoresRolling(s, Done)
    ensures StoresRolling(s', Done) <==> !LeavesDone(i, s.annotation.action)
    ensures i.st.replicas >= i.est.replicas ==> s'.trace == s.trace
  {
    hide Spec.RunStateMachine, Spec.SelectOutdated, WellFormed;
    var a := s.annotation.action;
    StepKeepsRecord(s, s', i);
    if i.st.replicas < i.est.replicas {
      hide GracefulReconcile, Acting;
      PreemptsDone(i, a);
      FreshScaleDownOk(i, Acting(i, a));
      OutcomeIsHandlers(i);
    } else {
      StaysActing(i, a);
      DoneIsIdle(i.est, i.v, Acting(i, a));
      SelectsNothingIff(i.est, i.v.(listed := i.v.finalList), Acting(i, a));
    }
  }

  /** Over runs: a Done rolling update stays Done until a reconcile leaves it. */
  lemma {:induction false} DoneUntilLeft(states: seq<State>, inputs: seq<Input>, n: nat, m: nat)
    requires Run(states, inputs) && n <= m < |states| && StoresRolling(states[n], Done)
    requires forall k | n <= k < m && states[k].annotation.Encoded? :: !LeavesDone(inputs[k], states[k].annotation.action)
    ensures StoresRolling(states[m], Done)
    ensures (forall k | n <= k < m :: inputs[k].st.replicas >= inputs[k].est.replicas) ==> states[m].trace == states[n].trace
  {
    hide Step, StoresRolling, LeavesDone;
    if n < m {
      assert Step(states[m - 1], states[m], inputs[m - 1]);
      DoneUntilLeft(states, inputs, n, m - 1);
      StoresRollingIsEncoded(states[m - 1]);
      StaysDoneIff(states[m - 1], states[m], inputs[m - 1]);
    }
  }

  lemma StoresRollingIsEncoded(s: State)
    requires StoresRolling(s, Done)
    ensures s.annotation.Encoded?
  {
  }

  /** Every reconcile asks for no scale-down and sees, before finalizing, an outdated pod. */
  ghost predicate OutdatedRemains(states: seq<State>, inputs: seq<Input>, n: nat, m: nat)
    requires n <= m < |states| == |inputs| + 1
  {
    forall k | n <= k < m && states[k].annotation.Encoded? ::
      && inputs[k].st.replicas >= inputs[k].est.replicas
      && !NoneOutdated(inputs[k].v.finalList, Target(inputs[k].est, states[k].annotation.action))
  }

  /** One failed list is enough: when the list that picks the next pod fails while outdated pods remain, the
      rolling update is Done, and for as long as the final lists show an outdated pod and no scale-down comes
      it stays Done and drains and deletes nothing. */
  lemma FailedListStopsUpdate(states: seq<State>, inputs: seq<Input>, n: nat, m: nat)
    requires Run(states, inputs) && n < m < |states| && StoresRolling(states[n], TriggerDrain)
    requires inputs[n].landed && inputs[n].v.listed.None?
    requires Target(inputs[n].est, states[n].annotation.action) != ""
    requires OutdatedRemains(states, inputs, n, m)
    ensures StoresRolling(states[m], Done) && states[m].trace == states[n].trace
  {
    hide Step, StoresRolling, NoneOutdated, Target;
    assert Step(states[n], states[n + 1], inputs[n]);
    FinishesAtFailedList(states[n], states[n + 1], inputs[n]);
    OutdatedStaysDone(states, inputs, n + 1, m);
  }

  lemma FinishesAtFailedList(s: State, s': State, i: Input)
    requires Step(s, s', i) && i.landed && StoresRolling(s, TriggerDrain)
    requires s.annotation.Encoded? ==>
               i.st.replicas >= i.est.replicas && Target(i.est, s.annotation.action) != ""
               && !NoneOutdated(i.v.finalList, Target(i.est, s.annotation.action))
    requires i.v.listed.None?
    ensures StoresRolling(s', Done) && s'.trace == s.trace
  {
    hide GracefulReconcile;
    FinishesIff(s, s', i);
  }

  lemma {:induction false} OutdatedStaysDone(states: seq<State>, inputs: seq<Input>, n: nat, m: nat)
    requires Run(states, inputs) && n <= m < |states| && StoresRolling(states[n], Done) && OutdatedRemains(states, inputs, n, m)
    ensures StoresRolling(states[m], Done) && states[m].trace == states[n].trace
  {
    hide Step, StoresRolling, NoneOutdated, Target;
    if n < m {
      assert Step(states[m - 1], states[m], inputs[m - 1]);
      OutdatedStaysDone(states, inputs, n, m - 1);
      StoresRollingIsEncoded(states[m - 1]);
      StaysDoneIff(states[m - 1], states[m], inputs[m - 1]);
    }
  }
}
