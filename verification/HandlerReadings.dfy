/** Each handler of the state machine, read off the raw readings: the fields of the record, of the pod, of
    the backend, and the clock. */
module HandlerReadings {
  import opened Wrappers
  import opened GracefulTypes
  import Spec = GracefulSpec
  import PodNames
  import GoStrings

  /** The time limits, in seconds. */
  lemma Limits()
    ensures Spec.DEFAULT_GRACE_SECONDS == 200 && Spec.WAIT_POD_READY_SECONDS == 400 && Spec.WAIT_BE_ALIVE_SECONDS == 400
    ensures Spec.REQUIRED_STABLE_OBSERVATIONS == 2
  {
  }

  /** b is the record a between two pods: only its type, target and desired count are left. */
  predicate BetweenPods(a: Action, b: Action) {
    b == Action(a.kind, TriggerDrain, "", 0, a.targetRevision, a.desiredReplicas,
                Timer(None, None), Drain(false, false, false), Initial(0, "", "", "", ""), Replacement("", "", "", ""), 0)
  }

  lemma AdvanceClears(a: Action)
    ensures BetweenPods(a, Spec.AdvanceToNextPod(a))
  {
  }

  /** The target of a rolling update follows the StatefulSet's update revision once there is one. */
  lemma TargetFollows(est: Sts, a: Action)
    ensures Spec.RefreshTarget(est, a)
         == a.(targetRevision := if a.kind == RollingUpdate && est.updateRevision != "" then est.updateRevision else a.targetRevision)
  {
  }

  // ----- TriggerDrain

  /** Which pod comes next, for an action that does not update pods. */
  lemma NextPodByCount(est: Sts, v: View, a: Action)
    requires a.kind != RollingUpdate
    ensures var s := Spec.SelectNextPod(est, v, a);
            s == if (a.kind == ScaleDown && a.desiredReplicas.Some? && a.desiredReplicas.value < est.replicas)
                 || (a.kind == Delete && est.replicas > 0)
                 then Some(Spec.Selection(est.name + "-" + GoStrings.FormatInt(est.replicas - 1), est.replicas - 1))
                 else None
  {
  }

  /** Before a pod is selected: a rolling update without a revision waits; without a pod the action is Done;
      else the selected pod's drain begins. */
  lemma TriggerSelects(est: Sts, v: View, a: Action)
    requires a.currentPod == ""
    ensures var target := if a.kind == RollingUpdate && est.updateRevision != "" then est.updateRevision else a.targetRevision;
            var b := a.(targetRevision := target);
            var s := Spec.SelectNextPod(est, v, b);
            Spec.HandleTriggerDrain(est, v, a)
            == if a.kind == RollingUpdate && target == "" then Spec.Outcome(b, [], true)
               else if s.None? then Spec.Outcome(b.(phase := Done), [], true)
               else Spec.DrainCurrentPod(v, b.(currentPod := s.value.pod, currentOrdinal := s.value.ordinal,
                                               drain := b.drain.(triggered := false)))
  {
    hide Spec.SelectNextPod, Spec.DrainCurrentPod;
  }

  /** A pod that cannot be read is an error; one that is gone already needs no drain. */
  lemma DrainWithoutPod(v: View, a: Action)
    requires v.podReadFails || a.currentPod !in v.pods
    ensures var o := Spec.DrainCurrentPod(v, a);
            && o.events == [] && (o.ok <==> !v.podReadFails)
            && if v.podReadFails then o.action == a
               else if a.kind == RollingUpdate then o.action == a.(phase := WaitPodReady)
               else BetweenPods(a, o.action)
  {
  }

  /** The record of a drain that begins: what the pod and its backend show, and when the drain is over. */
  lemma DrainBegins(v: View, a: Action)
    requires !v.podReadFails && a.currentPod in v.pods && !a.drain.triggered
    ensures var o, pod := Spec.DrainCurrentPod(v, a), v.pods[a.currentPod];
            var restarts := if pod.be.Some? then pod.be.value.restarts else 0;
            var grace := if pod.gracePeriod.Some? then pod.gracePeriod.value else 200;
            && o.ok
            && o.events == [DrainStarted(a.kind, a.currentPod, a.currentOrdinal, v.now, grace, restarts)]
            && o.action == a.(phase := WaitDrain,
                              timer := Timer(Some(v.now), Some(v.now + grace)),
                              drain := Drain(true, v.sentinelWrites, false),
                              initial := o.action.initial,
                              replacement := Replacement("", "", "", ""),
                              stableObservations := 0)
            && o.action.initial.restartCount == restarts
            && o.action.initial.podUID == pod.uid
            && o.action.initial.containerID == (if pod.be.Some? then pod.be.value.id else "")
            && if a.currentPod in v.backends then
                 var b := v.backends[a.currentPod];
                 && o.action.initial.backendStartTime == b.startTime
                 && o.action.initial.backendEpoch
                    == if b.status.ParsedStatus? && b.status.epoch.Some? then b.status.epoch.value else a.initial.backendEpoch
               else o.action.initial.backendStartTime == "" && o.action.initial.backendEpoch == ""
  {
  }

  /** A drain that had already been triggered is not triggered again. */
  lemma DrainNotRepeated(v: View, a: Action)
    requires !v.podReadFails && a.currentPod in v.pods && a.drain.triggered
    ensures var o := Spec.DrainCurrentPod(v, a);
            o.ok && o.events == [] && o.action.phase == WaitDrain && o.action.drain == Drain(true, false, false)
  {
  }

  // ----- WaitDrain

  /** A drain ends if and only if the pod's BE container has terminated, has restarted more often than was
      recorded, or the deadline has passed; else the record waits unchanged. */
  lemma WaitDrainEndsIff(v: View, a: Action)
    requires a.phase == WaitDrain && !v.podReadFails && a.currentPod in v.pods
    ensures var o, pod := Spec.HandleWaitDrain(v, a), v.pods[a.currentPod];
            var restarts := if pod.be.Some? then pod.be.value.restarts else 0;
            var exited := pod.be.Some? && pod.be.value.terminated;
            var restarted := restarts > a.initial.restartCount;
            var overdue := a.timer.deadlineAt.None? || v.now > a.timer.deadlineAt.value;
            && o.ok
            && (o.action.phase == DeletePod <==> exited || restarted || overdue)
            && if exited || restarted || overdue then
                 && o.events == [DrainEnded(a.currentPod, exited, restarts, v.now)]
                 && o.action == a.(phase := DeletePod,
                                   drain := if !exited && restarted then a.drain.(restartAnomaly := true) else a.drain)
               else o.action == a && o.events == []
  {
  }

  lemma WaitDrainWithoutPod(v: View, a: Action)
    requires v.podReadFails || a.currentPod !in v.pods
    ensures var o := Spec.HandleWaitDrain(v, a);
            && o.events == [] && (o.ok <==> !v.podReadFails)
            && if v.podReadFails then o.action == a
               else if a.kind == RollingUpdate then o.action == a.(phase := WaitPodReady, timer := Timer(None, None))
               else BetweenPods(a, o.action)
  {
  }

  // ----- DeletePod

  /** After a deletion: a rolling update waits for the replacement, the others lower the count to the deleted
      ordinal, unless it is that already or the write does not succeed, and go on to the next pod. */
  predicate GoesOn(v: View, a: Action, b: Action, written: seq<Event>) {
    match a.kind
    case RollingUpdate => b == a.(phase := WaitPodReady, timer := Timer(None, None)) && written == []
    case OtherType => b == a && written == []
    case _ =>
      && BetweenPods(a, b)
      && written == if v.liveReplicas.Some? && v.liveReplicas.value != a.currentOrdinal && !v.replicasWriteFails
                    then [ReplicasWritten(a.currentOrdinal)] else []
  }

  lemma DeletePodOutcome(v: View, a: Action)
    ensures var o := Spec.HandleDeletePod(v, a);
            if v.podReadFails then o == Spec.Outcome(a, [], false)
            else if a.currentPod !in v.pods then o.ok && GoesOn(v, a, o.action, o.events)
            else
              && |o.events| > 0 && o.events[0] == DeleteIssued(a.kind, a.currentPod, a.currentOrdinal, v.deleteOutcome)
              && (o.ok <==> v.deleteOutcome != Refused)
              && if o.ok then GoesOn(v, a, o.action, o.events[1..]) else o.action == a && |o.events| == 1
  {
  }

  // ----- WaitPodReady

  /** The wait for a replacement pod ends if and only if a pod of the name is there and ready. The deadline is
      400 seconds away when the wait begins, and 400 seconds more when it has passed. */
  lemma WaitPodReadyEndsIff(v: View, a: Action)
    requires a.phase == WaitPodReady
    ensures var o := Spec.HandleWaitPodReady(v, a);
            var ready := a.currentPod in v.pods && v.pods[a.currentPod].ready;
            var timer := if a.timer.deadlineAt.None? then Timer(Some(v.now), Some(v.now + 400)) else a.timer;
            && (o.ok <==> !v.podReadFails)
            && (o.action.phase == WaitBEAlive <==> ready && !v.podReadFails)
            && (!o.ok ==> o.events == [] && o.action == a.(timer := timer))
            && (o.ok && ready ==>
                  && o.events == [ReadySeen(a.currentPod)]
                  && o.action == a.(phase := WaitBEAlive, timer := Timer(None, None), replacement := o.action.replacement)
                  && o.action.replacement.podUID == v.pods[a.currentPod].uid
                  && o.action.replacement.containerID
                     == (if v.pods[a.currentPod].be.Some? then v.pods[a.currentPod].be.value.id else "")
                  && o.action.replacement.backendStartTime == a.replacement.backendStartTime
                  && o.action.replacement.backendEpoch == a.replacement.backendEpoch)
            && (o.ok && !ready ==>
                  && o.events == []
                  && o.action == a.(timer := if v.later > timer.deadlineAt.value then Timer(Some(v.later), Some(v.later + 400))
                                             else timer))
  {
  }

  // ----- WaitBEAlive

  /** The epoch a backend's status tells; empty when it tells none. */
  function ToldEpoch(b: Backend): string {
    if b.status.ParsedStatus? && b.status.epoch.Some? then b.status.epoch.value else ""
  }

  /** The status can be read and does not report a shutdown. */
  predicate NotShuttingDown(b: Backend) {
    b.status == EmptyStatus
    || (b.status.ParsedStatus? && (b.status.shutdown == AbsentShutdown || b.status.shutdown == Shutdown(false)))
  }

  /** The backend is up and of another generation than the one drained. */
  predicate Acceptable(b: Backend, drainedStart: string, drainedEpoch: string) {
    && b.alive && NotShuttingDown(b)
    && b.startTime != "" && b.startTime != drainedStart
    && (drainedEpoch != "" && b.status.ParsedStatus? && b.status.epoch.Some? ==> b.status.epoch.value != drainedEpoch)
  }

  lemma AcceptsIff(a: Action, b: Backend)
    ensures Spec.AcceptsBackend(a, b) <==> Acceptable(b, a.initial.backendStartTime, a.initial.backendEpoch)
  {
  }

  lemma RecordedEpoch(b: Backend)
    ensures Spec.EpochText(b) == ToldEpoch(b)
  {
  }

  /** One poll: an acceptable generation is counted, from one when it differs from the recorded one, and the
      second count ends the wait; any other poll ends it only after the deadline. */
  lemma WaitBEAliveEndsIff(v: View, a: Action)
    requires a.phase == WaitBEAlive
    ensures var o := Spec.HandleWaitBEAlive(v, a);
            var timer := if a.timer.deadlineAt.None? then Timer(Some(v.now), Some(v.now + 400)) else a.timer;
            && o.ok && o.events == []
            && if a.currentPod in v.backends
                  && Acceptable(v.backends[a.currentPod], a.initial.backendStartTime, a.initial.backendEpoch) then
                 var b := v.backends[a.currentPod];
                 var same := a.replacement.backendStartTime == b.startTime && a.replacement.backendEpoch == ToldEpoch(b);
                 var count := if same then a.stableObservations + 1 else 1;
                 if count >= 2 then BetweenPods(a, o.action)
                 else o.action == a.(timer := timer, stableObservations := count,
                                     replacement := a.replacement.(backendStartTime := b.startTime,
                                                                   backendEpoch := ToldEpoch(b)))
               else if v.later > timer.deadlineAt.value then BetweenPods(a, o.action)
               else o.action == a.(timer := timer)
  {
    if a.currentPod in v.backends { AcceptsIff(a, v.backends[a.currentPod]); }
  }

  // ----- the state machine

  /** One handler per phase; the end phases do nothing, and an unknown one is an error. */
  lemma HandlerOfPhase(est: Sts, v: View, a: Action)
    ensures a.phase == TriggerDrain ==> Spec.RunStateMachine(est, v, a) == Spec.HandleTriggerDrain(est, v, a)
    ensures a.phase == WaitDrain ==> Spec.RunStateMachine(est, v, a) == Spec.HandleWaitDrain(v, a)
    ensures a.phase == DeletePod ==> Spec.RunStateMachine(est, v, a) == Spec.HandleDeletePod(v, a)
    ensures a.phase == WaitPodReady ==> Spec.RunStateMachine(est, v, a) == Spec.HandleWaitPodReady(v, a)
    ensures a.phase == WaitBEAlive ==> Spec.RunStateMachine(est, v, a) == Spec.HandleWaitBEAlive(v, a)
    ensures a.phase == Done || a.phase == Failed ==> Spec.RunStateMachine(est, v, a) == Spec.Outcome(a, [], true)
    ensures a.phase == OtherPhase ==> Spec.RunStateMachine(est, v, a) == Spec.Outcome(a, [], false)
  {
    hide Spec.HandleTriggerDrain, Spec.HandleWaitDrain, Spec.HandleDeletePod, Spec.HandleWaitPodReady, Spec.HandleWaitBEAlive;
  }
}
