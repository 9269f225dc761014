/** What an apply and a whole reconcile leave on the live StatefulSet, field by field. */
module ApplyReadings {
  import opened Wrappers
  import opened GracefulTypes
  import opened GracefulRollout
  import opened GracefulRuns
  import opened ScaleIn
  import opened RolloutReadings
  import opened StatefulSetReconcile
  import Spec = GracefulSpec

  // ----- one apply

  /** An apply after a successful read: an absent object is created from the spec; one with the same hash,
      strategy and annotation is left alone; any other gets template, count, strategy and hash of the spec,
      and its annotation if it has one, and keeps name and revisions. Only a conflict is no error. */
  lemma ApplyOutcome(live: Option<Sts>, st: Sts, answer: ApplyAnswer, h: SpecHash)
    requires answer != Unread && CarriesHash(st, h)
    ensures var (after, ok) := Apply(live, st, answer);
            match live
            case None =>
              && ok == (answer == Landed)
              && after == if ok then Some(Sts(st.name, st.replicas, st.template, Some(h), st.strategy, st.annotation, "", "")) else None
            case Some(l) =>
              if CarriesHash(l, h) && st.strategy == l.strategy && st.annotation == l.annotation then after == live && ok
              else if answer == Landed then
                ok && after == Some(Sts(l.name, st.replicas, st.template, Some(h), st.strategy,
                                        if st.annotation == NoAnnotation then l.annotation else st.annotation,
                                        l.updateRevision, l.currentRevision))
              else after == live && ok == (answer == Conflict)
  {
  }

  lemma ApplyUnread(live: Option<Sts>, st: Sts)
    ensures Apply(live, st, Unread) == (live, false)
  {
  }

  /** Applying the same spec again changes nothing, however that apply ends. */
  lemma SecondApplyChangesNothing(live: Option<Sts>, st: Sts, again: ApplyAnswer)
    ensures var after := Apply(live, st, Landed).0; Apply(after, st, again).0 == after
  {
  }

  // ----- one reconcile

  /** A changed storage template stops everything. */
  lemma ChangedStorageStops(env: Env, st: Sts, est: Sts, phase: GroupPhase)
    requires !env.templatesEqual
    ensures var out := ReconcileExisting(env, st, est, phase);
            && out.live == Some(est) && !out.ok && out.phase == phase
            && out.commands == [] && out.events == [] && out.verdict.None? && out.applied.None?
  {
  }

  /** So does a live object that cannot be read. */
  lemma FailedReadStops(env: Env, st: Sts, live: Option<Sts>, phase: GroupPhase)
    requires env.readFails
    ensures var out := ReconcileSts(env, st, live, phase);
            && out.live == live && !out.ok && out.phase == phase
            && out.commands == [] && out.events == [] && out.verdict.None? && out.applied.None?
  {
  }

  /** A missing StatefulSet is created as it is wanted, with no gate and no graceful step. */
  lemma MissingIsCreated(env: Env, st: Sts, phase: GroupPhase)
    requires !env.readFails && st.specHash == None
    ensures var out := ReconcileSts(env, st, None, phase);
            && out.commands == [] && out.events == [] && out.phase == phase && (out.ok <==> env.answer == Landed)
            && out.verdict.None? && out.applied == Some(st)
            && out.live == if env.answer == Landed
                           then Some(Sts(st.name, st.replicas, st.template, Some(SpecHash(st.template, st.replicas)), st.strategy,
                                         st.annotation, "", ""))
                           else None
  {
  }

  /** The graceful step touches strategy, annotation and count of the wanted object, and only to OnDelete and
      to the count it found. */
  predicate Prepared(s: Sts, st: Sts, est: Sts) {
    && s.template == st.template && s.name == st.name && s.specHash == st.specHash
    && (s.strategy == OnDelete || s.strategy == st.strategy)
    && (s.replicas == st.replicas || s.replicas == est.replicas)
  }

  lemma GracefulPrepares(st: Sts, est: Sts, v: View, phase: GroupPhase)
    ensures Prepared(GracefulReconcile(st, est, v, phase).st, st, est)
  {
    match est.annotation
    case Undecodable => UndecodableIsError(st, est, v, phase);
    case NoAnnotation =>
      hide GracefulReconcile, Detect, SentinelSupported;
      StartsIff(st, est, v, phase);
    case Encoded(stored) =>
      hide GracefulReconcile, Spec.RunStateMachine, Preempt;
      GoesOnAs(st, est, v, phase, stored);
  }

  /** What reaches the apply is the wanted template under the wanted name, and OnDelete or the wanted strategy. */
  lemma AppliedIsWanted(env: Env, st: Sts, est: Sts, phase: GroupPhase)
    ensures var out := ReconcileExisting(env, st, est, phase);
            out.applied.Some? ==> Prepared(out.applied.value, st, est)
  {
    hide PreApply, GracefulReconcile, Apply;
    GracefulPrepares(st, est, env.v, PreApply(env.decommission, env.fe, st.replicas, est.replicas, phase).phase);
  }

  /** The hash the live object carries is, as far as the template goes, that of its own spec. */
  predicate TrueHash(live: Option<Sts>) {
    live.Some? && live.value.specHash.Some? ==> live.value.specHash.value.template == live.value.template
  }

  /** A landing apply delivers the wanted template; if the stored hash differed, the count
      and the hash handed to the apply as well; the strategy in any case. Name and revisions stay. */
  lemma LandedReconcileDelivers(env: Env, st: Sts, est: Sts, phase: GroupPhase)
    requires st.specHash == None && TrueHash(Some(est)) && env.answer == Landed
    requires ReconcileExisting(env, st, est, phase).applied.Some?
    ensures var out := ReconcileExisting(env, st, est, phase);
            && out.live.Some? && out.ok
            && out.live.value.template == st.template && TrueHash(out.live)
            && out.live.value.strategy == out.applied.value.strategy
            && out.live.value.name == est.name
            && out.live.value.updateRevision == est.updateRevision && out.live.value.currentRevision == est.currentRevision
            && (est.specHash.Some? && est.specHash.value != SpecHash(st.template, out.applied.value.replicas) ==>
                  && out.live.value.replicas == out.applied.value.replicas
                  && out.live.value.specHash == Some(SpecHash(st.template, out.applied.value.replicas)))
  {
    hide PreApply, GracefulStep, Apply, Hashed, HashOf;
    AppliedIsWanted(env, st, est, phase);
    var pre := PreApply(env.decommission, env.fe, st.replicas, est.replicas, phase).phase;
    var r := GracefulStep(env, st, est, pre);
    var live, spec := AfterGraceful(est, r), ToApply(r);
    ApplyOutcome(Some(live), spec, Landed, SpecHash(spec.template, spec.replicas));
  }

  lemma ReconcileKeepsTrueHash(env: Env, st: Sts, live: Option<Sts>, phase: GroupPhase)
    requires st.specHash == None && TrueHash(live)
    ensures TrueHash(ReconcileSts(env, st, live, phase).live)
  {
    if live.Some? && !env.readFails {
      hide ReconcileExisting;
      ExistingKeepsTrueHash(env, st, live.value, phase);
    }
  }

  lemma ExistingKeepsTrueHash(env: Env, st: Sts, est: Sts, phase: GroupPhase)
    requires st.specHash == None && TrueHash(Some(est))
    ensures TrueHash(ReconcileExisting(env, st, est, phase).live)
  {
    hide PreApply, GracefulStep, Apply, Hashed, HashOf;
    AppliedIsWanted(env, st, est, phase);
    var pre := PreApply(env.decommission, env.fe, st.replicas, est.replicas, phase).phase;
    var r := GracefulStep(env, st, est, pre);
    var live, spec := AfterGraceful(est, r), ToApply(r);
    if ReconcileExisting(env, st, est, phase).applied.None? {
    } else if env.answer == Unread {
      ApplyUnread(Some(live), spec);
    } else {
      ApplyOutcome(Some(live), spec, env.answer, SpecHash(spec.template, spec.replicas));
    }
  }

  // ----- whole runs

  /** After every run of the operator that starts without a StatefulSet, or with one it made, a landing
      reconcile that applies leaves the wanted template on the live object. */
  lemma {:induction false} HashStaysTrue(live: Option<Sts>, steps: seq<LiveStep>)
    requires TrueHash(live) && forall k | 0 <= k < |steps| && steps[k].ReconcileOnce? :: steps[k].st.specHash == None
    ensures TrueHash(LiveAfter(live, steps))
  {
    hide ReconcileSts;
    if steps != [] {
      var k := |steps| - 1;
      HashStaysTrue(live, steps[..k]);
      if steps[k].ReconcileOnce? {
        ReconcileKeepsTrueHash(steps[k].env, steps[k].st, LiveAfter(live, steps[..k]), steps[k].phase);
      }
    }
  }

  lemma TemplateArrives(live: Option<Sts>, steps: seq<LiveStep>, env: Env, st: Sts, phase: GroupPhase)
    requires TrueHash(live) && forall k | 0 <= k < |steps| && steps[k].ReconcileOnce? :: steps[k].st.specHash == None
    requires st.specHash == None && env.answer == Landed
    requires ReconcileSts(env, st, LiveAfter(live, steps), phase).applied.Some?
    ensures var after := ReconcileSts(env, st, LiveAfter(live, steps), phase).live;
            after.Some? && after.value.template == st.template
  {
    HashStaysTrue(live, steps);
    var before := LiveAfter(live, steps);
    hide ReconcileExisting, LiveAfter;
    if before.Some? {
      LandedReconcileDelivers(env, st, before.value, phase);
    } else {
      MissingIsCreated(env, st, phase);
    }
  }
}
