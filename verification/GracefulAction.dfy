/** The graceful action record as the handlers update it in place. Every method is tied to the
    function of the same name in GracefulSpec. */
module GracefulActions {
  import opened Wrappers
  import opened GracefulTypes
  import Spec = GracefulSpec
  import PodNames

  method SelectNextRollingUpdatePod(est: Sts, v: View, a: Action) returns (found: Option<Spec.Selection>)
    ensures found == Spec.SelectOutdated(est, v, a)
  {
    var target := a.targetRevision;
    if target == "" { target := est.updateRevision; }
    if v.listed.None? { return None; }
    var items := v.listed.value;
    var outdated: seq<Pod> := [];
    for i := 0 to |items|
      invariant outdated == Spec.OutdatedPods(items[..i], target)
    {
      assert items[..i + 1][..i] == items[..i];
      if items[i].revision != target { outdated := outdated + [items[i]]; }
    }
    assert items[..|items|] == items;
    if |outdated| == 0 { return None; }
    var sorted := Spec.SortDescending(outdated);
    var ordinal := PodNames.ExtractOrdinal(sorted[0].name);
    return Some(Spec.Selection(sorted[0].name, PodNames.Int32(ordinal)));
  }

  class GracefulAction {
    var kind: ActionType
    var phase: Phase
    var currentPod: string
    var currentOrdinal: int
    var targetRevision: string
    var desiredReplicas: Option<int>
    var timer: Timer
    var drain: Drain
    var initial: Initial
    var replacement: Replacement
    var stableObservations: int

    /** The record as it is encoded into the annotation. */
    function Value(): Action
      reads this
    {
      Action(kind, phase, currentPod, currentOrdinal, targetRevision, desiredReplicas, timer, drain, initial,
             replacement, stableObservations)
    }

    /** Decode the annotation's record. */
    constructor (a: Action)
      ensures Value() == a
    {
      kind, phase := a.kind, a.phase;
      currentPod, currentOrdinal := a.currentPod, a.currentOrdinal;
      targetRevision, desiredReplicas := a.targetRevision, a.desiredReplicas;
      timer, drain := a.timer, a.drain;
      initial, replacement, stableObservations := a.initial, a.replacement, a.stableObservations;
    }

    method RefreshRollingUpdateTargetRevision(est: Sts)
      modifies this
      ensures Value() == Spec.RefreshTarget(est, old(Value()))
    {
      if kind != RollingUpdate { return; }
      if est.updateRevision == "" { return; }
      targetRevision := est.updateRevision;
    }

    method ResetGracefulPhaseTimer()
      modifies this
      ensures Value() == Spec.ResetTimer(old(Value()))
    {
      timer := NO_TIMER;
    }

    method AdvanceToNextPod()
      modifies this
      ensures Value() == Spec.AdvanceToNextPod(old(Value()))
    {
      currentPod := "";
      currentOrdinal := 0;
      drain := NO_DRAIN;
      initial := NO_INITIAL;
      replacement := NO_REPLACEMENT;
      stableObservations := 0;
      ResetGracefulPhaseTimer();
      phase := TriggerDrain;
    }

    method SelectNextPod(est: Sts, v: View) returns (found: Option<Spec.Selection>)
      ensures found == Spec.SelectNextPod(est, v, Value())
    {
      match kind {
        case RollingUpdate =>
          found := SelectNextRollingUpdatePod(est, v, Value());
        case ScaleDown =>
          if desiredReplicas == None { return None; }
          if desiredReplicas.value >= est.replicas { return None; }
          var ordinal := est.replicas - 1;
          found := Some(Spec.Selection(PodNames.PodName(est.name, ordinal), ordinal));
        case Delete =>
          if est.replicas <= 0 { return None; }
          var ordinal := est.replicas - 1;
          found := Some(Spec.Selection(PodNames.PodName(est.name, ordinal), ordinal));
        case OtherType =>
          found := None;
      }
    }

    method HandleTriggerDrain(est: Sts, v: View) returns (events: seq<Event>, ok: bool)
      modifies this
      ensures Spec.Outcome(Value(), events, ok) == Spec.HandleTriggerDrain(est, v, old(Value()))
    {
      hide Spec.SelectNextPod, Spec.DrainCurrentPod;
      RefreshRollingUpdateTargetRevision(est);
      if currentPod == "" {
        if kind == RollingUpdate && targetRevision == "" { return [], true; }
        var found := SelectNextPod(est, v);
        if found == None {
          phase := Done;
          return [], true;
        }
        currentPod := found.value.pod;
        currentOrdinal := found.value.ordinal;
        drain := drain.(triggered := false);
      }
      events, ok := DrainCurrentPod(v);
    }

    /** Record which pod generation and which backend generation are about to be drained. */
    method CaptureGeneration(v: View, pod: Pod)
      modifies this
      ensures Value() == Spec.CaptureGeneration(v, pod, old(Value()))
    {
      initial := initial.(restartCount := Spec.RestartCount(pod), podUID := pod.uid, containerID := Spec.ContainerID(pod));
      drain := drain.(restartAnomaly := false, sentinelWritten := false);
      replacement := NO_REPLACEMENT;
      stableObservations := 0;
      if currentPod in v.backends {
        var backend := v.backends[currentPod];
        initial := initial.(backendStartTime := backend.startTime);
        var epoch := Spec.ProcessEpoch(backend);
        if epoch.Some? { initial := initial.(backendEpoch := epoch.value); }
      } else {
        initial := initial.(backendStartTime := "", backendEpoch := "");
      }
      timer := Timer(Some(v.now), Some(v.now + Spec.GracePeriod(pod)));
    }

    /** The part of the trigger handler that follows once a pod is selected. */
    method DrainCurrentPod(v: View) returns (events: seq<Event>, ok: bool)
      modifies this
      ensures Spec.Outcome(Value(), events, ok) == Spec.DrainCurrentPod(v, old(Value()))
    {
      var lookup := Spec.GetPod(v, currentPod);
      if lookup.PodReadError? { return [], false; }
      if lookup.PodNotFound? {
        if kind == RollingUpdate { phase := WaitPodReady; } else { AdvanceToNextPod(); }
        return [], true;
      }
      CaptureGeneration(v, lookup.pod);
      events, ok := [], true;
      if !drain.triggered {
        if v.sentinelWrites { drain := drain.(sentinelWritten := true); }
        events := [DrainStarted(kind, currentPod, currentOrdinal, v.now, Spec.GracePeriod(lookup.pod),
                               Spec.RestartCount(lookup.pod))];
        drain := drain.(triggered := true);
      }
      phase := WaitDrain;
    }

    method HandleWaitDrain(v: View) returns (events: seq<Event>, ok: bool)
      modifies this
      ensures Spec.Outcome(Value(), events, ok) == Spec.HandleWaitDrain(v, old(Value()))
    {
      events, ok := [], true;
      var lookup := Spec.GetPod(v, currentPod);
      if lookup.PodReadError? { return [], false; }
      if lookup.PodNotFound? {
        if kind == RollingUpdate {
          ResetGracefulPhaseTimer();
          phase := WaitPodReady;
        } else {
          AdvanceToNextPod();
        }
        return;
      }
      var ended := Spec.DrainEnd(v, lookup.pod, Value());
      if Spec.IsTerminated(lookup.pod) {
        phase := DeletePod;
        return [ended], true;
      }
      if Spec.RestartCount(lookup.pod) > initial.restartCount {
        drain := drain.(restartAnomaly := true);
        phase := DeletePod;
        return [ended], true;
      }
      if Spec.Past(v.now, timer.deadlineAt) {
        phase := DeletePod;
        return [ended], true;
      }
    }

    method AfterPodDeleted(v: View) returns (events: seq<Event>)
      modifies this
      ensures Spec.Outcome(Value(), events, true) == Spec.AfterPodDeleted(v, old(Value()))
    {
      events := [];
      match kind {
        case RollingUpdate =>
          ResetGracefulPhaseTimer();
          phase := WaitPodReady;
        case ScaleDown =>
          events := Spec.UpdateReplicas(v, currentOrdinal);
          AdvanceToNextPod();
        case Delete =>
          events := Spec.UpdateReplicas(v, currentOrdinal);
          AdvanceToNextPod();
        case OtherType =>
      }
    }

    method HandleDeletePod(v: View) returns (events: seq<Event>, ok: bool)
      modifies this
      ensures Spec.Outcome(Value(), events, ok) == Spec.HandleDeletePod(v, old(Value()))
    {
      var lookup := Spec.GetPod(v, currentPod);
      if lookup.PodReadError? { return [], false; }
      if lookup.PodNotFound? {
        events := AfterPodDeleted(v);
        return events, true;
      }
      var issued := DeleteIssued(kind, currentPod, currentOrdinal, v.deleteOutcome);
      if v.deleteOutcome == Refused { return [issued], false; }
      events := AfterPodDeleted(v);
      return [issued] + events, true;
    }

    method HandleWaitPodReady(v: View) returns (events: seq<Event>, ok: bool)
      modifies this
      ensures Spec.Outcome(Value(), events, ok) == Spec.HandleWaitPodReady(v, old(Value()))
    {
      events, ok := [], true;
      if timer.deadlineAt == None {
        timer := Timer(Some(v.now), Some(v.now + Spec.WAIT_POD_READY_SECONDS));
      }
      var lookup := Spec.GetPod(v, currentPod);
      if lookup.PodReadError? { return [], false; }
      if lookup.FoundPod? && lookup.pod.ready {
        replacement := replacement.(podUID := lookup.pod.uid, containerID := Spec.ContainerID(lookup.pod));
        ResetGracefulPhaseTimer();
        phase := WaitBEAlive;
        return [ReadySeen(currentPod)], true;
      }
      if Spec.Past(v.later, timer.deadlineAt) {
        timer := Timer(Some(v.later), Some(v.later + Spec.WAIT_POD_READY_SECONDS));
      }
    }

    method HandleWaitBEAlive(v: View) returns (events: seq<Event>, ok: bool)
      modifies this
      ensures Spec.Outcome(Value(), events, ok) == Spec.HandleWaitBEAlive(v, old(Value()))
    {
      events, ok := [], true;
      if timer.deadlineAt == None {
        timer := Timer(Some(v.now), Some(v.now + Spec.WAIT_BE_ALIVE_SECONDS));
      }
      if currentPod !in v.backends {
        if Spec.Past(v.later, timer.deadlineAt) { AdvanceToNextPod(); }
        return;
      }
      var backend := v.backends[currentPod];
      var shutdown := Spec.IsShutdown(backend);
      if shutdown.Failure? {
        if Spec.Past(v.later, timer.deadlineAt) { AdvanceToNextPod(); }
        return;
      }
      var currentEpoch := Spec.ProcessEpoch(backend);
      var acceptStartTime := backend.startTime != "" && backend.startTime != initial.backendStartTime;
      var acceptEpoch := true;
      if initial.backendEpoch != "" && currentEpoch.Some? {
        acceptEpoch := currentEpoch.value != initial.backendEpoch;
      }
      if backend.alive && !shutdown.value && acceptStartTime && acceptEpoch {
        if replacement.backendStartTime != backend.startTime || replacement.backendEpoch != Spec.EpochText(backend) {
          replacement := replacement.(backendStartTime := backend.startTime, backendEpoch := Spec.EpochText(backend));
          stableObservations := 1;
        } else {
          stableObservations := stableObservations + 1;
        }
        if stableObservations >= Spec.REQUIRED_STABLE_OBSERVATIONS { AdvanceToNextPod(); }
        return;
      }
      if Spec.Past(v.later, timer.deadlineAt) { AdvanceToNextPod(); }
    }

    method RunGracefulStateMachine(est: Sts, v: View) returns (events: seq<Event>, ok: bool)
      modifies this
      ensures Spec.Outcome(Value(), events, ok) == Spec.RunStateMachine(est, v, old(Value()))
    {
      hide Spec.HandleTriggerDrain, Spec.HandleWaitDrain, Spec.HandleDeletePod, Spec.HandleWaitPodReady, Spec.HandleWaitBEAlive;
      match phase {
        case TriggerDrain => events, ok := HandleTriggerDrain(est, v);
        case WaitDrain => events, ok := HandleWaitDrain(v);
        case DeletePod => events, ok := HandleDeletePod(v);
        case WaitPodReady => events, ok := HandleWaitPodReady(v);
        case WaitBEAlive => events, ok := HandleWaitBEAlive(v);
        case Done => events, ok := [], true;
        case Failed => events, ok := [], true;
        case OtherPhase => events, ok := [], false;
      }
    }
  }
}
