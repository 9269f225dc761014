/** Two runs from the start state in which a lost record breaks the order of drains and deletions. */
module LostRecordRuns {
  import opened Wrappers
  import opened GoStrings
  import opened PodNames
  import opened GracefulTypes
  import opened GracefulRollout
  import opened GracefulRuns
  import opened GracefulOrder
  import Spec = GracefulSpec

  // ----- two pods, the first of them outdated

  function PodAt(ordinal: nat, restarts: int): Pod {
    Pod(PodName("be", ordinal), "", "v1", true, Some(Container("", restarts, false)), None)
  }

  /** What a reconcile reads: only pod 0 is listed as outdated; its container has restarted this often. */
  function Readings(restarts: int): View {
    View(0, 0, None, Some([PodAt(0, restarts)]), None,
         map[PodName("be", 0) := PodAt(0, restarts), PodName("be", 1) := PodAt(1, 0)],
         false, Accepted, map[], true, true, Some(2), false, false)
  }

  /** A reconcile of the changed template, with this many replicas wanted. */
  function Reconcile(s: State, replicas: int, restarts: int, landed: bool): Input {
    Input(Sts("be", replicas, 1, None, RollingStrategy, NoAnnotation, "", ""),
          Sts("be", 2, 0, None, OnDelete, s.annotation, "v2", "v1"), Readings(restarts), landed)
  }

  function Next(s: State, i: Input): State {
    State(AnnotationAfter(s.annotation, Outcome(i), i.landed), s.trace + Outcome(i).events)
  }

  lemma NextIsStep(s: State, replicas: int, restarts: int, landed: bool)
    ensures Step(s, Next(s, Reconcile(s, replicas, restarts, landed)), Reconcile(s, replicas, restarts, landed))
  {
    hide GracefulReconcile;
  }

  lemma ZeroIsNotOne()
    ensures PodName("be", 0) != PodName("be", 1)
  {
    var a, b := PodName("be", 0), PodName("be", 1);
    assert a[3..] == Decimal(0) && b[3..] == Decimal(1);
    if a == b { DecimalInjective(0, 1); }
  }

  /** The rolling update that is stored once its first pod is selected. */
  ghost predicate Holds(s: State, phase: Phase) {
    && s.annotation.Encoded? && WellFormed(s.annotation.action) && s.annotation.action.kind == RollingUpdate
    && s.annotation.action.phase == phase && s.annotation.action.currentPod == PodName("be", 0)
    && s.annotation.action.initial.restartCount == 0
  }

  // ----- the single steps

  lemma Starts(s: State)
    requires s == State(NoAnnotation, [])
    ensures Next(s, Reconcile(s, 2, 0, true)) == State(Encoded(FreshAction(RollingUpdate, "", None)), [])
  {
    hide Spec.SelectOutdated, PodName;
  }

  lemma SelectsPodZero(est: Sts, v: View, a: Action)
    requires v.listed == Some([PodAt(0, 0)]) && Spec.EffectiveTarget(est, a) == "v2"
    ensures var s := Spec.SelectOutdated(est, v, a); s.Some? && s.value.pod == PodName("be", 0)
  {
    hide OrdinalOf, PodName;
    var pod := PodAt(0, 0);
    assert [pod][..0] == [];
    assert Spec.OutdatedPods([pod], "v2") == [pod];
    assert Spec.SortDescending([pod]) == [pod];
  }

  lemma Drains(s: State)
    requires s.annotation == Encoded(FreshAction(RollingUpdate, "", None))
    ensures var t := Next(s, Reconcile(s, 2, 0, true));
            && Holds(t, WaitDrain) && |t.trace| == |s.trace| + 1 && t.trace[..|s.trace|] == s.trace
            && t.trace[|s.trace|].DrainStarted? && t.trace[|s.trace|].pod == PodName("be", 0)
  {
    hide Spec.SelectOutdated, PodName;
    var i := Reconcile(s, 2, 0, true);
    var a := Acting(i, s.annotation.action);
    SelectsPodZero(i.est, i.v, a);
  }

  lemma EndsDrain(s: State)
    requires Holds(s, WaitDrain)
    ensures var t := Next(s, Reconcile(s, 2, 1, true));
            && Holds(t, DeletePod) && |t.trace| == |s.trace| + 1 && t.trace[..|s.trace|] == s.trace
            && t.trace[|s.trace|].DrainEnded?
  {
    hide Spec.SelectOutdated, PodName, WellFormed;
    ZeroIsNotOne();
    var i := Reconcile(s, 2, 1, true);
    NextIsStep(s, 2, 1, true);
    StepKeepsRecord(s, Next(s, i), i);
  }

  lemma Deletes(s: State, landed: bool)
    requires Holds(s, DeletePod)
    ensures var t := Next(s, Reconcile(s, 2, 1, landed));
            && (!landed ==> Holds(t, DeletePod)) && |t.trace| == |s.trace| + 1 && t.trace[..|s.trace|] == s.trace
            && AcceptedDelete(t.trace[|s.trace|]) && t.trace[|s.trace|].pod == PodName("be", 0)
  {
    hide Spec.SelectOutdated, PodName;
  }

  lemma PreemptedAndLost(s: State)
    requires Holds(s, WaitDrain)
    ensures var t := Next(s, Reconcile(s, 1, 0, false));
            && Holds(t, WaitDrain) && |t.trace| == |s.trace| + 1 && t.trace[..|s.trace|] == s.trace
            && t.trace[|s.trace|].DrainStarted? && t.trace[|s.trace|].pod == PodName("be", 1)
  {
    hide Spec.SelectOutdated, PodName;
    ZeroIsNotOne();
    var i := Reconcile(s, 1, 0, false);
    NextIsStep(s, 1, 0, false);
    PreemptionDrains(s, Next(s, i), i);
  }

  // ----- the runs

  /** Pod 0 is drained, a scale-down drains pod 1 and its record is lost, pod 0 is deleted. */
  lemma LostPreemptionRun() returns (states: seq<State>, inputs: seq<Input>)
    ensures Run(states, inputs) && |states| == 6
    ensures var t := states[5].trace;
            && |t| == 4 && t[0].DrainStarted? && t[1].DrainStarted? && t[2].DrainEnded? && t[3].DeleteIssued?
            && t[0].pod == t[3].pod != t[1].pod
            && !DeletesDrained(NO_LOST_PREEMPTION, t)
  {
    hide Next, Outcome, PodName, Holds, Step, WellFormed;
    var s0 := State(NoAnnotation, []);
    var i0 := Reconcile(s0, 2, 0, true);
    var s1 := Next(s0, i0);
    Starts(s0);
    var i1 := Reconcile(s1, 2, 0, true);
    var s2 := Next(s1, i1);
    Drains(s1);
    var i2 := Reconcile(s2, 1, 0, false);
    var s3 := Next(s2, i2);
    PreemptedAndLost(s2);
    var i3 := Reconcile(s3, 2, 1, true);
    var s4 := Next(s3, i3);
    EndsDrain(s3);
    var i4 := Reconcile(s4, 2, 1, true);
    var s5 := Next(s4, i4);
    Deletes(s4, true);
    ZeroIsNotOne();
    NextIsStep(s0, 2, 0, true);
    NextIsStep(s1, 2, 0, true);
    NextIsStep(s2, 1, 0, false);
    NextIsStep(s3, 2, 1, true);
    NextIsStep(s4, 2, 1, true);
    states, inputs := [s0, s1, s2, s3, s4, s5], [i0, i1, i2, i3, i4];
    var t := s5.trace;
    assert t[..3] == s4.trace && s4.trace[..2] == s3.trace && s3.trace[..1] == s2.trace;
    assert t[1] == s3.trace[1] && t[0] == s2.trace[0] && t[2] == s4.trace[2];
    if j: nat :| DrainedFor(NO_LOST_PREEMPTION, t, j, 3) { assert false; }
  }

  /** Pod 0 is drained and deleted, the record of that is lost, and the recreated pod 0 is deleted undrained. */
  lemma LostDeletionRun() returns (states: seq<State>, inputs: seq<Input>)
    ensures Run(states, inputs) && |states| == 6
    ensures var t := states[5].trace;
            && |t| == 4 && t[0].DrainStarted? && t[1].DrainEnded? && AcceptedDelete(t[2]) && AcceptedDelete(t[3])
            && t[0].pod == t[2].pod == t[3].pod
            && !DeletesDrained(NO_LOST_DELETION, t)
  {
    hide Next, Outcome, PodName, Holds, Step, WellFormed;
    var s0 := State(NoAnnotation, []);
    var i0 := Reconcile(s0, 2, 0, true);
    var s1 := Next(s0, i0);
    Starts(s0);
    var i1 := Reconcile(s1, 2, 0, true);
    var s2 := Next(s1, i1);
    Drains(s1);
    var i2 := Reconcile(s2, 2, 1, true);
    var s3 := Next(s2, i2);
    EndsDrain(s2);
    var i3 := Reconcile(s3, 2, 1, false);
    var s4 := Next(s3, i3);
    Deletes(s3, false);
    var i4 := Reconcile(s4, 2, 1, true);
    var s5 := Next(s4, i4);
    Deletes(s4, true);
    NextIsStep(s0, 2, 0, true);
    NextIsStep(s1, 2, 0, true);
    NextIsStep(s2, 2, 1, true);
    NextIsStep(s3, 2, 1, false);
    NextIsStep(s4, 2, 1, true);
    states, inputs := [s0, s1, s2, s3, s4, s5], [i0, i1, i2, i3, i4];
    var t := s5.trace;
    assert t[..3] == s4.trace && s4.trace[..2] == s3.trace && s3.trace[..1] == s2.trace;
    assert t[1] == s3.trace[1] && t[0] == s2.trace[0] && t[2] == s4.trace[2];
    SecondDeleteUndrained(t, 2, 3);
  }
}
