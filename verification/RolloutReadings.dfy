/** One graceful reconcile, read off the raw readings: what is detected, what starts, what goes on, and what
    StatefulSet is handed to the apply. */
module RolloutReadings {
  import opened Wrappers
  import opened GracefulTypes
  import opened GracefulRollout
  import opened ScaleIn
  import opened DoneRuns
  import Spec = GracefulSpec

  /** The hash an object carries, or that of its spec when it carries none. */
  predicate CarriesHash(s: Sts, h: SpecHash) {
    if s.specHash.Some? then h == s.specHash.value else h.template == s.template && h.replicas == s.replicas
  }

  /** A record before its first pod. */
  predicate IsFresh(a: Action, kind: ActionType, target: string, desired: Option<int>) {
    a == Action(kind, TriggerDrain, "", 0, target, desired, Timer(None, None), Drain(false, false, false),
                Initial(0, "", "", "", ""), Replacement("", "", "", ""), 0)
  }

  /** What is detected: fewer replicas, else another spec, else pods left behind by an update already applied. */
  lemma DetectsWhat(st: Sts, est: Sts, v: View, h: SpecHash)
    requires CarriesHash(st, h)
    ensures var d := Detect(st, est, v);
            if st.replicas < est.replicas then d.Some? && IsFresh(d.value, ScaleDown, "", Some(st.replicas))
            else if !CarriesHash(est, h) then d.Some? && IsFresh(d.value, RollingUpdate, "", None)
            else if est.updateRevision != "" && est.updateRevision != est.currentRevision
                    && !NoneOutdated(v.detectList, est.updateRevision) then
              d.Some? && IsFresh(d.value, RollingUpdate, est.updateRevision, None)
            else d.None?
  {
    hide Spec.SelectOutdated, NoneOutdated;
    SelectsNothingIff(est, v.(listed := v.detectList), RecoverAction(est));
  }

  /** The image of the pod that would come first must know the terminating sentinel; without such a pod there is
      nothing to ask. */
  lemma SupportedIff(st: Sts, est: Sts, v: View, d: Action)
    requires Detect(st, est, v) == Some(d)
    ensures SentinelSupported(est, v, d)
       <==> v.sentinelSupported
            || (d.kind == RollingUpdate
                && NoneOutdated(v.detectList, if d.targetRevision == "" then est.updateRevision else d.targetRevision))
  {
    hide Spec.SelectOutdated, NoneOutdated;
    SelectsNothingIff(est, v.(listed := v.detectList), d);
  }

  /** Without a stored action the reconcile stores what it detects, if supported, and touches no pod; it holds
      the count back for a scale-down only. */
  lemma StartsIff(st: Sts, est: Sts, v: View, phase: GroupPhase)
    requires est.annotation == NoAnnotation
    ensures var r, d := GracefulReconcile(st, est, v, phase), Detect(st, est, v);
            && r.ok && r.events == [] && !r.cleared
            && if d.None? || !SentinelSupported(est, v, d.value) then r.st == st && !r.skipApply && r.phase == phase
               else
                 && r.skipApply
                 && r.st == st.(strategy := OnDelete, annotation := Encoded(d.value),
                                replicas := if d.value.kind == ScaleDown then est.replicas else st.replicas)
                 && r.phase == (if d.value.kind == ScaleDown then GracefulScaling else GracefulRolling)
  {
    hide Spec.SelectOutdated, SentinelSupported;
  }

  lemma UndecodableIsError(st: Sts, est: Sts, v: View, phase: GroupPhase)
    requires est.annotation == Undecodable
    ensures GracefulReconcile(st, est, v, phase) == Reconciled(st, true, false, [], false, phase)
  {
  }

  /** Only a detected scale-down takes over from a rolling update; a stored deletion and a stored scale-down
      go on whatever is detected, and a record of unknown type gives way to anything. */
  lemma PreemptsIff(st: Sts, est: Sts, v: View, stored: Action)
    ensures var a, d := Preempt(stored, Detect(st, est, v)), Detect(st, est, v);
            if stored.kind == RollingUpdate && st.replicas < est.replicas then IsFresh(a, ScaleDown, "", Some(st.replicas))
            else if stored.kind == OtherType && d.Some? then a == d.value
            else a == stored
  {
    hide Spec.SelectOutdated;
  }

  /** The group's phase shows the kind of the action. */
  predicate ShowsKind(phase: GroupPhase, kind: ActionType, before: GroupPhase) {
    phase == if kind == RollingUpdate then GracefulRolling
             else if kind == ScaleDown then GracefulScaling
             else if kind == Delete then GracefulDeleting
             else before
  }

  /** A stored action goes on: an error changes nothing and skips the graceful apply; a finished action is
      cleared, leaving count and template as wanted; any other hands on the record, OnDelete, and the wanted
      count, or for a scale-down or deletion the count it found. */
  lemma GoesOnAs(st: Sts, est: Sts, v: View, phase: GroupPhase, stored: Action)
    requires est.annotation == Encoded(stored)
    ensures var r, a := GracefulReconcile(st, est, v, phase), Preempt(stored, Detect(st, est, v));
            var target := if a.kind == RollingUpdate && est.updateRevision != "" then est.updateRevision else a.targetRevision;
            var o := Spec.RunStateMachine(est, v, a.(targetRevision := target));
            var b := o.action;
            var finished := b.phase == Done
                            && (b.kind == RollingUpdate ==>
                                  NoneOutdated(v.finalList, if b.targetRevision == "" then est.updateRevision else b.targetRevision));
            && r.events == o.events
            && if !o.ok then r.st == st && r.skipApply && !r.ok && !r.cleared && ShowsKind(r.phase, a.kind, phase)
               else if finished && v.finalizeFails then
                 r.st == st && r.skipApply && !r.ok && !r.cleared && r.phase == Reconciling
               else if finished then
                 && r.st == st.(strategy := OnDelete, annotation := NoAnnotation)
                 && !r.skipApply && r.ok && r.cleared && r.phase == Reconciling
               else
                 && r.st == st.(strategy := OnDelete, annotation := Encoded(b),
                                replicas := if b.kind == ScaleDown || b.kind == Delete then est.replicas else st.replicas)
                 && r.skipApply && r.ok && !r.cleared && ShowsKind(r.phase, a.kind, phase)
  {
    hide Spec.RunStateMachine, Spec.SelectOutdated, Detect, NoneOutdated;
    var o := Advance(st, est, v, stored);
    SelectsNothingIff(est, v.(listed := v.finalList), o.action);
  }
}
