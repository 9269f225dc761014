/** The whole StatefulSet reconcile as a step of the graceful rollout's runs, so that what holds of every
    run of the rollout holds of every run of the operator. */
module LiveRuns {
  import opened Wrappers
  import opened GracefulTypes
  import opened GracefulRollout
  import opened GracefulRuns
  import ScaleIn
  import opened StatefulSetReconcile
  import Spec = GracefulSpec

  function StoredAnnotation(live: Option<Sts>): Annotation {
    if live.Some? then live.value.annotation else NoAnnotation
  }

  // ----- one reconcile

  /** What one graceful step hands to the apply, and whether its record is then the live one. */
  lemma ApplyPersists(env: Env, est: Sts, i: Input, r: Reconciled)
    requires r == Outcome(i).(phase := r.phase) && i.st.annotation == NoAnnotation && i.est == est
    ensures var live := AfterGraceful(est, r);
            var after := Apply(Some(live), ToApply(r), env.answer).0;
            after.Some?
            && after.value.annotation
               == AnnotationAfter(est.annotation, Outcome(i),
                                  env.answer == Landed || (env.answer != Unread && ApplyEqual(ToApply(r), live)))
  {
    hide Outcome, HashOf;
    if est.annotation.Encoded? {
      OutcomeIsHandlers(i);
    } else {
      NotCleared(i);
    }
  }

  lemma NotCleared(i: Input)
    requires !i.est.annotation.Encoded?
    ensures !Outcome(i).cleared && Outcome(i).events == []
  {
    hide Spec.SelectOutdated, SentinelSupported;
  }

  /** A reconcile of an existing StatefulSet leaves annotation and pods alone, or is a step of the rollout;
      the step's record lands whenever the apply does. */
  lemma ReconcileIsStep(env: Env, st: Sts, est: Sts, phase: ScaleIn.GroupPhase, trace: seq<Event>) returns (landed: bool)
    requires st.annotation == NoAnnotation
    ensures env.answer == Landed ==> landed
    ensures var out := ReconcileExisting(env, st, est, phase);
            && out.live.Some?
            && ((out.events == [] && out.live.value.annotation == est.annotation)
                || Step(State(est.annotation, trace), State(out.live.value.annotation, trace + out.events),
                        Input(st, est, env.v, landed)))
  {
    hide ScaleIn.PreApply, GracefulReconcile, HashOf;
    landed := env.answer == Landed;
    var pre := ScaleIn.PreApply(env.decommission, env.fe, st.replicas, est.replicas, phase).phase;
    if env.execConfigured {
      var i := Input(st, est, env.v, true);
      var r := GracefulReconcile(st, est, env.v, pre);
      PhaseIsCarried(i, pre);
      ApplyPersists(env, est, i, r);
      landed := env.answer == Landed || (env.answer != Unread && ApplyEqual(ToApply(r), AfterGraceful(est, r)));
      LandedIsNoReading(st, est, env.v, landed);
    }
  }

  lemma LandedIsNoReading(st: Sts, est: Sts, v: View, landed: bool)
    ensures Outcome(Input(st, est, v, landed)) == Outcome(Input(st, est, v, true))
  {
    hide GracefulReconcile;
  }

  // ----- whole runs

  function StepEvents(live: Option<Sts>, step: LiveStep): seq<Event> {
    match step
    case ReconcileOnce(env, st, phase) => ReconcileSts(env, st, live, phase).events
    case StatusChange(_, _, _) => []
  }

  /** Everything the operator did to pods. */
  function TraceOf(live: Option<Sts>, steps: seq<LiveStep>): seq<Event> {
    if steps == [] then []
    else
      var before := steps[..|steps| - 1];
      TraceOf(live, before) + StepEvents(LiveAfter(live, before), steps[|steps| - 1])
  }

  ghost predicate GeneratedSpecs(steps: seq<LiveStep>) {
    forall k | 0 <= k < |steps| && steps[k].ReconcileOnce? :: steps[k].st.annotation == NoAnnotation
  }

  ghost predicate AllLand(steps: seq<LiveStep>) {
    forall k | 0 <= k < |steps| && steps[k].ReconcileOnce? :: steps[k].env.answer == Landed
  }

  lemma LiveStepIsStep(live: Option<Sts>, step: LiveStep, trace: seq<Event>) returns (i: Option<Input>)
    requires step.ReconcileOnce? ==> step.st.annotation == NoAnnotation
    ensures var after, events := Live(live, step), StepEvents(live, step);
            match i
            case None => events == [] && StoredAnnotation(after) == StoredAnnotation(live)
            case Some(input) =>
              && Step(State(StoredAnnotation(live), trace), State(StoredAnnotation(after), trace + events), input)
              && step.ReconcileOnce? && (step.env.answer == Landed ==> input.landed)
  {
    hide ReconcileExisting, Step, HashOf;
    i := None;
    if step.ReconcileOnce? && live.Some? && !step.env.readFails {
      var landed := ReconcileIsStep(step.env, step.st, live.value, step.phase, trace);
      var input := Input(step.st, live.value, step.env.v, landed);
      var out := ReconcileExisting(step.env, step.st, live.value, step.phase);
      if Step(State(live.value.annotation, trace), State(out.live.value.annotation, trace + out.events), input) {
        i := Some(input);
      }
    }
  }

  /** Every run of the operator is a run of the rollout, with the same stored annotation and the same effects
      on pods; its records all land if all applies do. */
  lemma {:induction false} LiveRunIsRun(live: Option<Sts>, steps: seq<LiveStep>) returns (states: seq<State>, inputs: seq<Input>)
    requires StoredAnnotation(live) == NoAnnotation && GeneratedSpecs(steps)
    ensures Run(states, inputs)
    ensures states[|inputs|] == State(StoredAnnotation(LiveAfter(live, steps)), TraceOf(live, steps))
    ensures AllLand(steps) ==> forall k | 0 <= k < |inputs| :: inputs[k].landed
  {
    hide Step, Live, StepEvents, StoredAnnotation;
    if steps == [] {
      states, inputs := [State(NoAnnotation, [])], [];
    } else {
      var m := |steps| - 1;
      states, inputs := LiveRunIsRun(live, steps[..m]);
      var i := LiveStepIsStep(LiveAfter(live, steps[..m]), steps[m], TraceOf(live, steps[..m]));
      if i.Some? {
        states := states + [State(StoredAnnotation(LiveAfter(live, steps)), TraceOf(live, steps))];
        inputs := inputs + [i.value];
      }
    }
  }

  /** The stored record is well-formed after every run of the operator. */
  lemma StoredRecordIsWellFormed(live: Option<Sts>, steps: seq<LiveStep>)
    requires StoredAnnotation(live) == NoAnnotation && GeneratedSpecs(steps)
    ensures var a := StoredAnnotation(LiveAfter(live, steps)); a.Encoded? ==> WellFormed(a.action)
  {
    hide WellFormed, LiveAfter, TraceOf;
    var states, inputs := LiveRunIsRun(live, steps);
    RecordIsWellFormed(states, inputs, |inputs|);
  }

  /** In every run of the operator a pod deletion comes after the end of a drain of that pod, and nothing is
      drained or deleted in between but what lost records account for; nothing at all if every apply lands. */
  lemma OperatorDrainsBeforeDelete(live: Option<Sts>, steps: seq<LiveStep>, i: nat) returns (j: nat, k: nat)
    requires StoredAnnotation(live) == NoAnnotation && GeneratedSpecs(steps)
    requires i < |TraceOf(live, steps)| && TraceOf(live, steps)[i].DeleteIssued?
    ensures var t, l := TraceOf(live, steps), if AllLand(steps) then Losses(false, false) else ANY_LOSS;
            && j < k < i && Ends(t[j], t[k])
            && t[j].pod == t[i].pod && t[j].kind == t[i].kind
            && forall m | j < m < i :: Tolerated(l, t[i].kind, t[i].pod, t[m])
  {
    hide LiveAfter, TraceOf, Tolerated, Ends, Preempts, DeletesPod;
    var states, inputs := LiveRunIsRun(live, steps);
    var l := if AllLand(steps) then Losses(false, false) else ANY_LOSS;
    j, k := DrainBeforeDelete(l, states, inputs, |inputs|, i);
  }
}
