/** A rolling update from its fresh record to Done when nothing interferes: which pods it deletes, in
    which order, and after how many phase changes it ends. */
module RollingRun {
  import opened Wrappers
  import opened GracefulTypes
  import opened GracefulRollout
  import opened GracefulRuns
  import Spec = GracefulSpec
  import PodNames

  // ----- the selection picks the highest outdated ordinal

  ghost predicate Descending(pods: seq<Pod>) {
    forall i, j | 0 <= i < j < |pods| :: Spec.Ordinal(pods[i]) >= Spec.Ordinal(pods[j])
  }

  lemma {:induction false} InsertMembers(pod: Pod, sorted: seq<Pod>)
    ensures multiset(Spec.InsertDescending(pod, sorted)) == multiset(sorted) + multiset{pod}
  {
    hide Spec.Ordinal;
    if !(sorted == [] || Spec.Ordinal(pod) > Spec.Ordinal(sorted[0])) {
      InsertMembers(pod, sorted[1..]);
      assert sorted == [sorted[0]] + sorted[1..];
    }
  }

  /** Everything inserted into is at or below a bound that covers both. */
  lemma InsertBelow(pod: Pod, sorted: seq<Pod>, bound: int)
    requires Spec.Ordinal(pod) <= bound && forall i | 0 <= i < |sorted| :: Spec.Ordinal(sorted[i]) <= bound
    ensures forall i | 0 <= i < |Spec.InsertDescending(pod, sorted)| :: Spec.Ordinal(Spec.InsertDescending(pod, sorted)[i]) <= bound
  {
    hide Spec.Ordinal, Spec.InsertDescending;
    InsertMembers(pod, sorted);
    var all := Spec.InsertDescending(pod, sorted);
    forall i | 0 <= i < |all| ensures Spec.Ordinal(all[i]) <= bound {
      assert all[i] in multiset(all);
      assert all[i] == pod || all[i] in sorted;
    }
  }

  lemma {:induction false} InsertIsDescending(pod: Pod, sorted: seq<Pod>)
    requires Descending(sorted)
    ensures Descending(Spec.InsertDescending(pod, sorted))
  {
    hide Spec.Ordinal;
    if !(sorted == [] || Spec.Ordinal(pod) > Spec.Ordinal(sorted[0])) {
      InsertIsDescending(pod, sorted[1..]);
      InsertBelow(pod, sorted[1..], Spec.Ordinal(sorted[0]));
    }
  }

  lemma NoPodsDescend()
    ensures Descending([])
  {
  }

  lemma {:induction false} SortIsDescending(pods: seq<Pod>)
    ensures Descending(Spec.SortDescending(pods))
    ensures multiset(Spec.SortDescending(pods)) == multiset(pods)
  {
    hide Spec.Ordinal, Spec.InsertDescending, Descending;
    NoPodsDescend();
    if pods != [] {
      var k := |pods| - 1;
      SortIsDescending(pods[..k]);
      InsertMembers(pods[k], Spec.SortDescending(pods[..k]));
      InsertIsDescending(pods[k], Spec.SortDescending(pods[..k]));
      assert pods == pods[..k] + [pods[k]];
    }
  }

  lemma {:induction false} OutdatedMembers(listed: seq<Pod>, target: string)
    ensures forall p :: p in Spec.OutdatedPods(listed, target) <==> p in listed && p.revision != target
  {
    if listed != [] {
      OutdatedMembers(listed[..|listed| - 1], target);
      assert listed == listed[..|listed| - 1] + [listed[|listed| - 1]];
    }
  }

  /** The selected pod is a listed outdated pod, no other listed outdated pod has a higher ordinal, and
      nothing is selected only when every listed pod carries the target revision. */
  lemma SelectsHighestOutdated(est: Sts, v: View, a: Action) returns (pod: Option<Pod>)
    requires v.listed.Some?
    ensures var s := Spec.SelectOutdated(est, v, a); var target := Spec.EffectiveTarget(est, a);
            match pod
            case None => s == None && forall p | p in v.listed.value :: p.revision == target
            case Some(p) =>
              && s == Some(Spec.Selection(p.name, PodNames.Int32(Spec.Ordinal(p))))
              && p in v.listed.value && p.revision != target
              && forall q | q in v.listed.value && q.revision != target :: Spec.Ordinal(q) <= Spec.Ordinal(p)
  {
    hide PodNames.OrdinalOf, PodNames.Int32;
    var target := Spec.EffectiveTarget(est, a);
    var outdated := Spec.OutdatedPods(v.listed.value, target);
    OutdatedMembers(v.listed.value, target);
    if outdated == [] {
      pod := None;
      assert forall p | p in v.listed.value :: p.revision != target ==> p in outdated;
    } else {
      SortIsDescending(outdated);
      var sorted := Spec.SortDescending(outdated);
      assert forall p :: p in sorted <==> p in multiset(sorted);
      assert forall p :: p in outdated <==> p in multiset(outdated);
      assert sorted[0] in sorted;
      pod := Some(sorted[0]);
    }
  }

  // ----- the run

  type Pods = pods: map<string, Pod> | forall n | n in pods :: pods[n].name == n witness map[]

  /** The record, the pods, everything done, and how often the phase changed. */
  datatype RollState = RollState(action: Action, pods: Pods, trace: seq<Event>, changes: nat)

  datatype RollInput = RollInput(st: Sts, est: Sts, v: View)

  function Outdated(pods: Pods, target: string): set<string> {
    set n | n in pods && pods[n].revision != target
  }

  /** Reads see the pods as they are and a deletion is accepted. */
  ghost predicate Faithful(v: View, pods: Pods) {
    && v.listed.Some?
    && (forall p | p in v.listed.value :: p.name in pods && pods[p.name] == p)
    && (forall n | n in pods :: pods[n] in v.listed.value)
    && v.pods == pods && !v.podReadFails && v.deleteOutcome == Accepted
  }

  /** Between reconciles pods restart, become ready and are created at the target revision; no pod
      vanishes and no outdated pod appears or disappears. */
  ghost predicate Environment(before: Pods, after: Pods, target: string) {
    before.Keys <= after.Keys && Outdated(after, target) == Outdated(before, target)
  }

  function DeletedPods(events: seq<Event>): set<string> {
    set e | e in events && e.DeleteIssued? :: e.pod
  }

  function Remaining(pods: Pods, events: seq<Event>): Pods {
    map n | n in pods && n !in DeletedPods(events) :: pods[n]
  }

  ghost predicate RollStep(s: RollState, s': RollState, i: RollInput, target: string) {
    && i.st.replicas >= i.est.replicas
    && target != "" && i.est.updateRevision == target
    && Faithful(i.v, s.pods)
    && var o := Advance(i.st, i.est, i.v, s.action);
    && s'.action == o.action
    && s'.trace == s.trace + o.events
    && s'.changes == s.changes + (if o.action.phase != s.action.phase then 1 else 0)
    && Environment(Remaining(s.pods, o.events), s'.pods, target)
  }

  ghost predicate RollingFrom(run: seq<RollState>, inputs: seq<RollInput>, target: string) {
    && |run| == |inputs| + 1
    && (exists t :: run[0].action == FreshAction(RollingUpdate, t, None))
    && run[0].trace == [] && run[0].changes == 0
    && (forall m, n | m in Outdated(run[0].pods, target) && n in Outdated(run[0].pods, target) ::
          PodNames.OrdinalOf(m) == PodNames.OrdinalOf(n) ==> m == n)
    && forall k | 0 <= k < |inputs| :: RollStep(run[k], run[k + 1], inputs[k], target)
  }

  /** The deleted pods, in the order of their deletion. */
  function Deletions(trace: seq<Event>): seq<string> {
    if trace == [] then []
    else
      var last := trace[|trace| - 1];
      Deletions(trace[..|trace| - 1]) + if last.DeleteIssued? then [last.pod] else []
  }

  /** One effect at most: a deletion moves its pod from the outdated pods to the deletions, anything
      else leaves both alone. */
  lemma EffectOn(pods: Pods, trace: seq<Event>, events: seq<Event>, target: string)
    requires |events| <= 1
    ensures var outdated := Outdated(Remaining(pods, events), target);
            if events != [] && events[0].DeleteIssued?
            then outdated == Outdated(pods, target) - {events[0].pod}
                 && Deletions(trace + events) == Deletions(trace) + [events[0].pod]
            else outdated == Outdated(pods, target) && Deletions(trace + events) == Deletions(trace)
  {
    if events == [] {
      assert trace + events == trace;
      assert Remaining(pods, events) == pods;
    } else {
      assert events == [events[0]];
      assert (trace + events)[..|trace|] == trace;
      assert DeletedPods(events) == if events[0].DeleteIssued? then {events[0].pod} else {};
    }
  }

  // ----- the invariant

  /** The deleted pods and the outdated ones make up the initially outdated ones, and the deletions
      run strictly downwards, above everything still outdated. */
  ghost predicate Partition(start: set<string>, deleted: seq<string>, outdated: set<string>) {
    && (set n | n in deleted) + outdated == start
    && (forall n | n in deleted :: n !in outdated)
    && (forall i, j | 0 <= i < j < |deleted| :: PodNames.OrdinalOf(deleted[i]) > PodNames.OrdinalOf(deleted[j]))
    && (forall n, o | n in deleted && o in outdated :: PodNames.OrdinalOf(n) > PodNames.OrdinalOf(o))
  }

  ghost predicate Highest(pod: string, outdated: set<string>) {
    pod in outdated && forall o | o in outdated :: PodNames.OrdinalOf(o) <= PodNames.OrdinalOf(pod)
  }

  ghost predicate Injective(start: set<string>) {
    forall m, n | m in start && n in start :: PodNames.OrdinalOf(m) == PodNames.OrdinalOf(n) ==> m == n
  }

  /** Where a record stands in the fixed order of its five phases, given the pods deleted so far. */
  ghost predicate OnTrack(s: RollState, target: string) {
    var outdated, deleted := Outdated(s.pods, target), |Deletions(s.trace)|;
    match s.action.phase
    case TriggerDrain => s.changes == 5 * deleted
    case WaitDrain => Highest(s.action.currentPod, outdated) && s.changes == 5 * deleted + 1
    case DeletePod => Highest(s.action.currentPod, outdated) && s.changes == 5 * deleted + 2
    case WaitPodReady => deleted > 0 && s.changes == 5 * deleted - 2
    case WaitBEAlive => deleted > 0 && s.changes == 5 * deleted - 1
    case Done => outdated == {} && s.changes == 5 * deleted + 1
    case _ => false
  }

  ghost predicate RollInvariant(start: set<string>, target: string, s: RollState) {
    && WellFormed(s.action) && s.action.kind == RollingUpdate
    && Partition(start, Deletions(s.trace), Outdated(s.pods, target))
    && OnTrack(s, target)
  }

  /** What one reconcile does under the run's hypotheses: it waits, or it takes the one next phase. */
  ghost predicate NextPhase(s: RollState, o: Spec.Outcome, outdated: set<string>) {
    match s.action.phase
    case TriggerDrain =>
      if outdated == {} then o.events == [] && o.action.phase == Done
      else |o.events| == 1 && !o.events[0].DeleteIssued? && o.action.phase == WaitDrain && Highest(o.action.currentPod, outdated)
    case WaitDrain =>
      || (o.events == [] && o.action.phase == WaitDrain && o.action.currentPod == s.action.currentPod)
      || (|o.events| == 1 && !o.events[0].DeleteIssued? && o.action.phase == DeletePod
          && o.action.currentPod == s.action.currentPod)
    case DeletePod =>
      && |o.events| == 1 && o.events[0].DeleteIssued? && o.events[0].pod == s.action.currentPod
      && o.action.phase == WaitPodReady
    case WaitPodReady =>
      || (o.events == [] && o.action.phase == WaitPodReady)
      || (|o.events| == 1 && !o.events[0].DeleteIssued? && o.action.phase == WaitBEAlive)
    case WaitBEAlive => o.events == [] && (o.action.phase == WaitBEAlive || o.action.phase == TriggerDrain)
    case Done => o.events == [] && o.action.phase == Done
    case _ => true
  }

  lemma TriggerTakesHighest(est: Sts, v: View, a: Action, pods: Pods, target: string)
    requires WellFormed(a) && a.kind == RollingUpdate && a.phase == TriggerDrain && a.targetRevision == target != ""
    requires est.updateRevision == target && Faithful(v, pods)
    ensures var o := Spec.HandleTriggerDrain(est, v, a);
            && o.ok
            && if Outdated(pods, target) == {} then o.events == [] && o.action.phase == Done
               else |o.events| == 1 && !o.events[0].DeleteIssued? && o.action.phase == WaitDrain
                    && Highest(o.action.currentPod, Outdated(pods, target))
  {
    hide PodNames.OrdinalOf, PodNames.Int32, Spec.SelectOutdated;
    var pod := SelectsHighestOutdated(est, v, a);
    match pod
    case None =>
      forall n | n in pods ensures pods[n].revision == target { assert pods[n] in v.listed.value; }
    case Some(p) =>
      assert p.name in Outdated(pods, target);
      forall o | o in Outdated(pods, target) ensures PodNames.OrdinalOf(o) <= PodNames.OrdinalOf(p.name) {
        assert pods[o] in v.listed.value;
      }
  }

  lemma StepTakesNextPhase(start: set<string>, s: RollState, i: RollInput, target: string)
    requires RollInvariant(start, target, s)
    requires i.st.replicas >= i.est.replicas && target != "" && i.est.updateRevision == target && Faithful(i.v, s.pods)
    ensures var o := Advance(i.st, i.est, i.v, s.action);
            o.ok && o.action.kind == RollingUpdate && NextPhase(s, o, Outdated(s.pods, target))
  {
    hide PodNames.OrdinalOf, Spec.SelectOutdated, Spec.HandleTriggerDrain, Partition, Detect;
    assert Preempt(s.action, Detect(i.st, i.est, i.v)) == s.action by { DetectsNoScaleDown(i); }
    var a := Spec.RefreshTarget(i.est, s.action);
    assert WellFormed(a);
    HandlerKeepsGoal(i.est, i.v, a);
    if a.phase == TriggerDrain {
      TriggerTakesHighest(i.est, i.v, a, s.pods, target);
    }
  }

  lemma DetectsNoScaleDown(i: RollInput)
    requires i.st.replicas >= i.est.replicas
    ensures var d := Detect(i.st, i.est, i.v); d.Some? ==> d.value.kind == RollingUpdate
  {
    hide Spec.SelectOutdated;
  }

  lemma DeletionSplits(start: set<string>, deleted: seq<string>, outdated: set<string>, pod: string)
    requires Injective(start) && Partition(start, deleted, outdated) && Highest(pod, outdated)
    ensures Partition(start, deleted + [pod], outdated - {pod})
  {
    hide PodNames.OrdinalOf;
    assert (set n | n in deleted + [pod]) == (set n | n in deleted) + {pod};
  }

  lemma StepKeepsRolling(start: set<string>, s: RollState, s': RollState, i: RollInput, target: string)
    requires Injective(start) && RollInvariant(start, target, s) && RollStep(s, s', i, target)
    ensures RollInvariant(start, target, s')
  {
    hide PodNames.OrdinalOf, Advance, Partition, Injective, Outdated, Remaining, Deletions, Highest;
    StepTakesNextPhase(start, s, i, target);
    var o := Advance(i.st, i.est, i.v, s.action);
    AdvanceKeepsWellFormed(i, s.action);
    EffectOn(s.pods, s.trace, o.events, target);
    if s.action.phase == DeletePod {
      DeletionSplits(start, Deletions(s.trace), Outdated(s.pods, target), s.action.currentPod);
    }
  }

  lemma AdvanceKeepsWellFormed(i: RollInput, a: Action)
    requires WellFormed(a)
    ensures var o := Advance(i.st, i.est, i.v, a); o.ok ==> WellFormed(o.action)
  {
    hide Spec.RunStateMachine, Spec.RefreshTarget, Preempt, Detect;
    var input := Input(i.st, i.est, i.v, true);
    ActingFacts(input, a);
    HandlerKeepsWellFormed(i.est, i.v, Acting(input, a));
  }

  lemma {:induction false} RunKeepsRolling(run: seq<RollState>, inputs: seq<RollInput>, target: string, k: nat)
    requires RollingFrom(run, inputs, target) && k < |run|
    ensures RollInvariant(Outdated(run[0].pods, target), target, run[k])
  {
    hide PodNames.OrdinalOf, RollStep, Outdated;
    if k == 0 {
      assert Deletions(run[0].trace) == [];
    } else {
      RunKeepsRolling(run, inputs, target, k - 1);
      assert RollStep(run[k - 1], run[k], inputs[k - 1], target);
      StepKeepsRolling(Outdated(run[0].pods, target), run[k - 1], run[k], inputs[k - 1], target);
    }
  }

  // ----- the results

  lemma {:induction false} DistinctCount(s: seq<string>)
    requires forall i, j | 0 <= i < j < |s| :: s[i] != s[j]
    ensures |set n | n in s| == |s|
  {
    if s != [] {
      var k := |s| - 1;
      DistinctCount(s[..k]);
      assert (set n | n in s) == (set n | n in s[..k]) + {s[k]};
    }
  }

  /** At every point of the run the deletions have strictly decreasing ordinals, hit only initially
      outdated pods, and what is outdated now is what was outdated at first and is not yet deleted. */
  lemma DeletionsRunDownwards(run: seq<RollState>, inputs: seq<RollInput>, target: string, k: nat)
    requires RollingFrom(run, inputs, target) && k < |run|
    ensures var d := Deletions(run[k].trace);
            && (forall i, j | 0 <= i < j < |d| :: PodNames.OrdinalOf(d[i]) > PodNames.OrdinalOf(d[j]))
            && (forall i | 0 <= i < |d| :: d[i] in Outdated(run[0].pods, target))
            && Outdated(run[k].pods, target) == Outdated(run[0].pods, target) - (set n | n in d)
  {
    hide PodNames.OrdinalOf;
    RunKeepsRolling(run, inputs, target, k);
    var d := Deletions(run[k].trace);
    assert forall i | 0 <= i < |d| :: d[i] in set n | n in d;
  }

  /** When the run is Done, every initially outdated pod was deleted exactly once and no other pod was,
      every pod carries the target revision, and the phase changed exactly 5k + 1 times for k
      initially outdated pods. */
  lemma DoneAfterFivePerPod(run: seq<RollState>, inputs: seq<RollInput>, target: string, k: nat)
    requires RollingFrom(run, inputs, target) && k < |run| && run[k].action.phase == Done
    ensures var d, start := Deletions(run[k].trace), Outdated(run[0].pods, target);
            && (set n | n in d) == start && |d| == |start|
            && (forall n | n in run[k].pods :: run[k].pods[n].revision == target)
            && run[k].changes == 5 * |start| + 1
  {
    hide PodNames.OrdinalOf;
    RunKeepsRolling(run, inputs, target, k);
    var d := Deletions(run[k].trace);
    DistinctCount(d);
    forall n | n in run[k].pods ensures run[k].pods[n].revision == target {
      assert n !in Outdated(run[k].pods, target);
    }
  }

  /** The pod being deleted is outdated at that moment. */
  lemma DeletesOnlyOutdated(run: seq<RollState>, inputs: seq<RollInput>, target: string, k: nat)
    requires RollingFrom(run, inputs, target) && k < |inputs|
    ensures forall e | e in Advance(inputs[k].st, inputs[k].est, inputs[k].v, run[k].action).events && e.DeleteIssued? ::
              e.pod in Outdated(run[k].pods, target)
  {
    hide PodNames.OrdinalOf, Advance;
    RunKeepsRolling(run, inputs, target, k);
    assert RollStep(run[k], run[k + 1], inputs[k], target);
    StepTakesNextPhase(Outdated(run[0].pods, target), run[k], inputs[k], target);
  }

  function Rank(phase: Phase): nat {
    match phase
    case WaitPodReady => 5
    case WaitBEAlive => 4
    case TriggerDrain => 3
    case WaitDrain => 2
    case DeletePod => 1
    case _ => 0
  }

  /** Every step either waits, leaving the phase and the outdated pods alone, or lowers the pair
      (number of outdated pods, rank of the phase) lexicographically. */
  lemma StepLowersMeasure(run: seq<RollState>, inputs: seq<RollInput>, target: string, k: nat)
    requires RollingFrom(run, inputs, target) && k < |inputs|
    ensures var before, after := Outdated(run[k].pods, target), Outdated(run[k + 1].pods, target);
            || (run[k + 1].action.phase == run[k].action.phase && after == before)
            || |after| < |before|
            || (after == before && Rank(run[k + 1].action.phase) < Rank(run[k].action.phase))
  {
    hide PodNames.OrdinalOf, Advance, Outdated, Remaining, Deletions, Partition;
    RunKeepsRolling(run, inputs, target, k);
    var s, i := run[k], inputs[k];
    assert RollStep(s, run[k + 1], i, target);
    StepTakesNextPhase(Outdated(run[0].pods, target), s, i, target);
    EffectOn(s.pods, s.trace, Advance(i.st, i.est, i.v, s.action).events, target);
  }
}
