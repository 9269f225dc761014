/** Every effect of a run comes from a reconcile whose readings show what the effect says; drain before
    delete, stated about those readings. */
module EventReadings {
  import opened Wrappers
  import opened GracefulTypes
  import opened GracefulRollout
  import opened GracefulRuns
  import opened HandlerReadings
  import Spec = GracefulSpec

  /** The BE container's restarts; none are seen without a status of the container. */
  function Restarts(pod: Pod): int { if pod.be.Some? then pod.be.value.restarts else 0 }

  /** What the readings must show for the effect e. */
  predicate ShownBy(e: Event, v: View) {
    match e
    case DrainStarted(_, name, _, at, grace, restarts) =>
      && !v.podReadFails && name in v.pods && at == v.now && restarts == Restarts(v.pods[name])
      && grace == if v.pods[name].gracePeriod.Some? then v.pods[name].gracePeriod.value else 200
    case DrainEnded(name, terminated, restartsSeen, endedAt) =>
      && !v.podReadFails && name in v.pods && endedAt == v.now && restartsSeen == Restarts(v.pods[name])
      && (terminated <==> v.pods[name].be.Some? && v.pods[name].be.value.terminated)
    case DeleteIssued(_, name, _, outcome) => !v.podReadFails && name in v.pods && outcome == v.deleteOutcome
    case ReadySeen(name) => !v.podReadFails && name in v.pods && v.pods[name].ready
    case ReplicasWritten(count) => v.liveReplicas.Some? && v.liveReplicas.value != count && !v.replicasWriteFails
  }

  lemma DrainIsShown(v: View, a: Action)
    ensures var events := Spec.DrainCurrentPod(v, a).events;
            |events| <= 1 && forall k | 0 <= k < |events| :: ShownBy(events[k], v)
  {
    if v.podReadFails || a.currentPod !in v.pods { DrainWithoutPod(v, a); }
    else if a.drain.triggered { DrainNotRepeated(v, a); }
    else { DrainBegins(v, a); }
  }

  /** The effects of a handler are shown, and the start or the end of a drain is its only one. */
  lemma HandlerIsShown(est: Sts, v: View, a: Action)
    requires WellFormed(a)
    ensures var events := Spec.RunStateMachine(est, v, a).events;
            && (forall k | 0 <= k < |events| :: ShownBy(events[k], v))
            && (forall k | 0 <= k < |events| :: events[k].DrainStarted? || events[k].DrainEnded? ==> |events| == 1)
  {
    hide Spec.RunStateMachine, Spec.HandleTriggerDrain, Spec.HandleWaitDrain, Spec.HandleDeletePod, Spec.HandleWaitPodReady,
         Spec.HandleWaitBEAlive, Spec.DrainCurrentPod, Spec.SelectNextPod;
    HandlerOfPhase(est, v, a);
    match a.phase {
      case TriggerDrain =>
        TriggerSelects(est, v, a);
        var target := if a.kind == RollingUpdate && est.updateRevision != "" then est.updateRevision else a.targetRevision;
        var b := a.(targetRevision := target);
        var s := Spec.SelectNextPod(est, v, b);
        if s.Some? {
          DrainIsShown(v, b.(currentPod := s.value.pod, currentOrdinal := s.value.ordinal, drain := b.drain.(triggered := false)));
        }
      case WaitDrain =>
        if v.podReadFails || a.currentPod !in v.pods { WaitDrainWithoutPod(v, a); } else { WaitDrainEndsIff(v, a); }
      case DeletePod => DeletePodOutcome(v, a);
      case WaitPodReady => WaitPodReadyEndsIff(v, a);
      case WaitBEAlive => WaitBEAliveEndsIff(v, a);
      case _ =>
    }
  }

  lemma StepIsShown(s: State, s': State, i: Input)
    requires Step(s, s', i) && RecordInvariant(s)
    ensures |s.trace| <= |s'.trace| && s'.trace[..|s.trace|] == s.trace
    ensures forall t | |s.trace| <= t < |s'.trace| :: ShownBy(s'.trace[t], i.v)
    ensures forall t | |s.trace| <= t < |s'.trace| && (s'.trace[t].DrainStarted? || s'.trace[t].DrainEnded?) ::
              |s'.trace| == |s.trace| + 1
  {
    hide Spec.RunStateMachine, Acting, GracefulReconcile, ShownBy;
    if s.annotation.Encoded? {
      ActingFacts(i, s.annotation.action);
      HandlerIsShown(i.est, i.v, Acting(i, s.annotation.action));
      OutcomeIsHandlers(i);
    } else {
      NoEffects(i);
    }
  }

  lemma NoEffects(i: Input)
    requires !i.est.annotation.Encoded?
    ensures Outcome(i).events == []
  {
    hide Spec.SelectOutdated, SentinelSupported;
  }

  /** Step m of the run made entry t of the trace. */
  ghost predicate MadeBy(states: seq<State>, m: nat, t: nat) {
    m + 1 < |states| && |states[m].trace| <= t < |states[m + 1].trace|
  }

  /** Every entry of the trace was made by a reconcile whose readings show it. */
  lemma {:induction false} EventIsShown(states: seq<State>, inputs: seq<Input>, n: nat, t: nat) returns (m: nat)
    requires Run(states, inputs) && n < |states| && t < |states[n].trace|
    ensures m < n && MadeBy(states, m, t) && ShownBy(states[n].trace[t], inputs[m].v)
    ensures states[n].trace[t].DrainStarted? || states[n].trace[t].DrainEnded? ==>
              |states[m + 1].trace| == |states[m].trace| + 1
    ensures |states[m + 1].trace| <= |states[n].trace| && states[n].trace[..|states[m + 1].trace|] == states[m + 1].trace
  {
    hide Step, ShownBy;
    assert Step(states[n - 1], states[n], inputs[n - 1]);
    RecordIsWellFormed(states, inputs, n - 1);
    StepIsShown(states[n - 1], states[n], inputs[n - 1]);
    var before, now := states[n - 1].trace, states[n].trace;
    if t < |before| {
      m := EventIsShown(states, inputs, n - 1, t);
      assert now[t] == before[t];
      assert now[..|states[m + 1].trace|] == before[..|states[m + 1].trace|];
    } else {
      m := n - 1;
      assert now[..|now|] == now;
    }
  }

  lemma StepGrows(s: State, s': State, i: Input)
    requires Step(s, s', i)
    ensures |s.trace| <= |s'.trace|
  {
    hide GracefulReconcile;
  }

  lemma {:induction false} TracesGrow(states: seq<State>, inputs: seq<Input>, m: nat, n: nat)
    requires Run(states, inputs) && m <= n < |states|
    ensures |states[m].trace| <= |states[n].trace|
  {
    hide Step;
    if m < n {
      TracesGrow(states, inputs, m, n - 1);
      assert Step(states[n - 1], states[n], inputs[n - 1]);
      StepGrows(states[n - 1], states[n], inputs[n - 1]);
    }
  }

  lemma MakersInOrder(states: seq<State>, inputs: seq<Input>, p: nat, q: nat, j: nat, k: nat)
    requires Run(states, inputs) && MadeBy(states, p, j) && MadeBy(states, q, k) && j <= k
    ensures p <= q
  {
    if q < p { TracesGrow(states, inputs, q + 1, p); }
  }

  /** Drain before delete over the readings. A pod is deleted at a reconcile r only after a reconcile p that
      found it and began its drain, and a later one q, not after r, that found a pod of that name with its BE
      container terminated, or restarted more often than p had seen, or more than the grace period p had seen
      after p. */
  lemma DrainSeenBeforeDelete(states: seq<State>, inputs: seq<Input>, n: nat, i: nat) returns (p: nat, q: nat, r: nat)
    requires Run(states, inputs) && n < |states|
    requires i < |states[n].trace| && states[n].trace[i].DeleteIssued?
    ensures p < q <= r < n && MadeBy(states, r, i)
    ensures var name := states[n].trace[i].pod;
            && name in inputs[p].v.pods && name in inputs[q].v.pods && name in inputs[r].v.pods
            && var first, last := inputs[p].v.pods[name], inputs[q].v.pods[name];
            var grace := if first.gracePeriod.Some? then first.gracePeriod.value else 200;
            || (last.be.Some? && last.be.value.terminated)
            || Restarts(last) > Restarts(first)
            || inputs[q].v.now > inputs[p].v.now + grace
  {
    hide Step, Tolerated, Within;
    EverythingWithin(inputs);
    var trace := states[n].trace;
    var j, k := DrainBeforeDelete(ANY_LOSS, states, inputs, n, i);
    p := EventIsShown(states, inputs, n, j);
    q := EventIsShown(states, inputs, n, k);
    r := EventIsShown(states, inputs, n, i);
    MakersInOrder(states, inputs, p, q, j, k);
    MakersInOrder(states, inputs, q, r, k, i);
  }

  lemma EverythingWithin(inputs: seq<Input>)
    ensures forall k | 0 <= k < |inputs| :: Within(ANY_LOSS, inputs[k])
  {
  }
}
