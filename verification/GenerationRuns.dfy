/** Over every run: the drained backend generation a record remembers is the one the FE showed when the
    drain began, and a rolling update leaves a replaced pod in time only after the FE showed, at two
    different reconciles, one and the same newer generation. */
module GenerationRuns {
  import opened Wrappers
  import opened GracefulTypes
  import opened GracefulRollout
  import opened GracefulRuns
  import opened HandlerReadings
  import Spec = GracefulSpec

  /** The pod and backend generation these readings show. */
  function Generation(v: View, name: string): Initial
    requires name in v.pods
  {
    var pod, known := v.pods[name], name in v.backends;
    Initial(if pod.be.Some? then pod.be.value.restarts else 0, pod.uid, if pod.be.Some? then pod.be.value.id else "",
            if known then v.backends[name].startTime else "",
            if known then ToldEpoch(v.backends[name]) else "")
  }

  /** The record remembers the generation shown in v. */
  ghost predicate Captures(v: View, a: Action) {
    a.currentPod in v.pods && a.initial == Generation(v, a.currentPod)
  }

  /** v shows the replacement generation the record remembers, and it is acceptable. */
  ghost predicate Shows(v: View, a: Action) {
    && a.currentPod in v.backends
    && var b := v.backends[a.currentPod];
    && Acceptable(b, a.initial.backendStartTime, a.initial.backendEpoch)
    && b.startTime == a.replacement.backendStartTime && ToldEpoch(b) == a.replacement.backendEpoch
  }

  /** A counted replacement generation was shown at a reconcile after m. */
  ghost predicate SeenAfter(a: Action, inputs: seq<Input>, m: int) {
    a.stableObservations == 1 ==> exists p: nat :: m < p < |inputs| && Shows(inputs[p].v, a)
  }

  /** m is the reconcile that captured the drained generation; -1 when none was captured. */
  ghost predicate CapturedAt(a: Action, inputs: seq<Input>, m: int) {
    if m == -1 then a.initial == NO_INITIAL else 0 <= m < |inputs| && Captures(inputs[m].v, a)
  }

  ghost predicate Remembers(a: Action, inputs: seq<Input>) {
    exists m :: CapturedAt(a, inputs, m) && SeenAfter(a, inputs, m)
  }

  lemma RemembersExtends(a: Action, inputs: seq<Input>, i: Input)
    requires Remembers(a, inputs)
    ensures Remembers(a, inputs + [i])
  {
    hide Captures, Shows;
    var m :| CapturedAt(a, inputs, m) && SeenAfter(a, inputs, m);
    assert forall k | 0 <= k < |inputs| :: (inputs + [i])[k] == inputs[k];
    assert CapturedAt(a, inputs + [i], m);
    if a.stableObservations == 1 {
      var p: nat :| m < p < |inputs| && Shows(inputs[p].v, a);
      assert Shows((inputs + [i])[p].v, a);
    }
  }

  /** What a successful handler call does to the remembered generations. */
  ghost predicate GenerationShape(v: View, a: Action, b: Action) {
    || (b.initial == NO_INITIAL && b.stableObservations == 0)
    || (Captures(v, b) && b.stableObservations == 0)
    || (b.initial == a.initial && b.currentPod == a.currentPod
        && ((b.replacement.backendStartTime == a.replacement.backendStartTime
             && b.replacement.backendEpoch == a.replacement.backendEpoch
             && b.stableObservations == a.stableObservations)
            || Shows(v, b)))
  }

  lemma DrainCaptures(v: View, a: Action)
    requires a.phase == TriggerDrain && a.initial == NO_INITIAL && a.stableObservations == 0
    ensures var o := Spec.DrainCurrentPod(v, a);
            o.ok ==> o.action.stableObservations == 0 && (o.action.initial == NO_INITIAL || Captures(v, o.action))
    ensures a.currentPod in v.pods && !v.podReadFails ==> Captures(v, Spec.DrainCurrentPod(v, a).action)
  {
  }

  lemma HandlerHasGenerationShape(est: Sts, v: View, a: Action)
    requires WellFormed(a)
    ensures var o := Spec.RunStateMachine(est, v, a); o.ok ==> GenerationShape(v, a, o.action)
  {
    hide Spec.SelectNextPod, Spec.DrainCurrentPod, Captures;
    if a.phase == TriggerDrain {
      var r := Spec.RefreshTarget(est, a);
      var s := Spec.SelectNextPod(est, v, r);
      if s.Some? {
        DrainCaptures(v, r.(currentPod := s.value.pod, currentOrdinal := s.value.ordinal,
                            drain := r.drain.(triggered := false)));
      }
    }
  }

  lemma HandlerKeepsRemembering(i: Input, a: Action, b: Action, inputs: seq<Input>)
    requires WellFormed(a) && WellFormed(b) && Remembers(a, inputs) && GenerationShape(i.v, a, b)
    ensures Remembers(b, inputs + [i])
  {
    hide Captures, Shows, WellFormed;
    var after := inputs + [i];
    assert forall k | 0 <= k < |inputs| :: after[k] == inputs[k];
    assert after[|inputs|] == i;
    if b.initial == NO_INITIAL && b.stableObservations == 0 {
      assert CapturedAt(b, after, -1);
    } else if Captures(i.v, b) && b.stableObservations == 0 {
      assert CapturedAt(b, after, |inputs|);
    } else {
      KeptGeneration(i, a, b, inputs);
    }
  }

  lemma KeptGeneration(i: Input, a: Action, b: Action, inputs: seq<Input>)
    requires Remembers(a, inputs)
    requires b.initial == a.initial && b.currentPod == a.currentPod
    requires (b.replacement.backendStartTime == a.replacement.backendStartTime
              && b.replacement.backendEpoch == a.replacement.backendEpoch
              && b.stableObservations == a.stableObservations)
          || Shows(i.v, b)
    ensures Remembers(b, inputs + [i])
  {
    hide Acceptable, Generation;
    var after := inputs + [i];
    var m :| CapturedAt(a, inputs, m) && SeenAfter(a, inputs, m);
    assert forall k | 0 <= k < |inputs| :: after[k] == inputs[k];
    assert CapturedAt(b, after, m);
    if b.stableObservations == 1 {
      if Shows(i.v, b) {
        assert Shows(after[|inputs|].v, b);
      } else {
        var p: nat :| m < p < |inputs| && Shows(inputs[p].v, a);
        assert Shows(after[p].v, b);
      }
    }
  }

  ghost predicate RememberInvariant(s: State, inputs: seq<Input>) {
    RecordInvariant(s) && (s.annotation.Encoded? ==> Remembers(s.annotation.action, inputs))
  }

  lemma FreshRemembers(a: Action, inputs: seq<Input>)
    requires a.initial == NO_INITIAL && a.stableObservations == 0
    ensures Remembers(a, inputs)
  {
    assert CapturedAt(a, inputs, -1);
  }

  lemma ActingRemembers(i: Input, stored: Action, inputs: seq<Input>)
    requires WellFormed(stored) && Remembers(stored, inputs)
    ensures Remembers(Acting(i, stored), inputs)
  {
    hide Acting, Shows, Captures;
    ActingFacts(i, stored);
    var a := Acting(i, stored);
    if a.kind != stored.kind {
      FreshRemembers(a, inputs);
    } else {
      SameGenerationRemembers(stored, a, inputs);
    }
  }

  lemma SameGenerationRemembers(a: Action, b: Action, inputs: seq<Input>)
    requires Remembers(a, inputs) && b == a.(targetRevision := b.targetRevision)
    ensures Remembers(b, inputs)
  {
    var m :| CapturedAt(a, inputs, m) && SeenAfter(a, inputs, m);
    assert CapturedAt(b, inputs, m);
    if b.stableObservations == 1 {
      var p: nat :| m < p < |inputs| && Shows(inputs[p].v, a);
      assert Shows(inputs[p].v, b);
    }
  }

  lemma StepKeepsRemembering(s: State, s': State, i: Input, inputs: seq<Input>)
    requires Step(s, s', i) && RememberInvariant(s, inputs)
    ensures RememberInvariant(s', inputs + [i])
  {
    hide Spec.SelectNextPod, Spec.RunStateMachine, Spec.SelectOutdated, Remembers;
    StepKeepsRecord(s, s', i);
    if s.annotation.Encoded? {
      var stored := s.annotation.action;
      var a := Acting(i, stored);
      ActingFacts(i, stored);
      ActingRemembers(i, stored, inputs);
      RemembersExtends(stored, inputs, i);
      var o := Spec.RunStateMachine(i.est, i.v, a);
      if o.ok {
        HandlerKeepsWellFormed(i.est, i.v, a);
        HandlerHasGenerationShape(i.est, i.v, a);
        HandlerKeepsRemembering(i, a, o.action, inputs);
      }
    } else if s'.annotation.Encoded? {
      FreshRemembers(s'.annotation.action, inputs + [i]);
    }
  }

  lemma {:induction false} RunKeepsRemembering(states: seq<State>, inputs: seq<Input>, n: nat)
    requires Run(states, inputs) && n < |states|
    ensures RememberInvariant(states[n], inputs[..n])
  {
    hide Remembers;
    if n > 0 {
      RunKeepsRemembering(states, inputs, n - 1);
      assert inputs[..n] == inputs[..n - 1] + [inputs[n - 1]];
      StepKeepsRemembering(states[n - 1], states[n], inputs[n - 1], inputs[..n - 1]);
    }
  }

  /** When a reconcile of any run ends the wait for the replacement backend before the deadline, this
      reconcile and an earlier one p both saw the pod's backend alive, not shutting down, and in the same
      generation. If the drain captured a generation, it did so at a reconcile m before p, and the start
      time seen now differs from the one the FE showed at m. */
  lemma AdvancesOnNewGeneration(states: seq<State>, inputs: seq<Input>, n: nat) returns (m: int, p: nat)
    requires Run(states, inputs) && n < |inputs|
    requires states[n].annotation.Encoded? && states[n].annotation.action.phase == WaitBEAlive
    requires Acting(inputs[n], states[n].annotation.action).kind == RollingUpdate
    requires var a, v := states[n].annotation.action, inputs[n].v;
             && v.later <= (if a.timer.deadlineAt.Some? then a.timer.deadlineAt.value else v.now + 400)
             && Spec.RunStateMachine(inputs[n].est, v, Acting(inputs[n], a)).action.phase == TriggerDrain
    ensures var pod := states[n].annotation.action.currentPod;
            && m < p < n && pod in inputs[p].v.backends && pod in inputs[n].v.backends
            && var first, second := inputs[p].v.backends[pod], inputs[n].v.backends[pod];
            && first.alive && second.alive
            && NotShuttingDown(first) && NotShuttingDown(second)
            && first.startTime == second.startTime != ""
            && ToldEpoch(first) == ToldEpoch(second)
            && (m >= 0 ==> pod in inputs[m].v.pods && states[n].annotation.action.initial == Generation(inputs[m].v, pod))
            && (m >= 0 && pod in inputs[m].v.backends ==> second.startTime != inputs[m].v.backends[pod].startTime)
            && (m >= 0 && pod in inputs[m].v.backends && ToldEpoch(inputs[m].v.backends[pod]) != "" ==>
                  ToldEpoch(second) != ToldEpoch(inputs[m].v.backends[pod]))
            && (m < 0 ==> states[n].annotation.action.initial == NO_INITIAL)
  {
    RunKeepsRemembering(states, inputs, n);
    var stored := states[n].annotation.action;
    ActingFacts(inputs[n], stored);
    AdvanceConfirms(inputs[n].est, inputs[n].v, Acting(inputs[n], stored));
    var seen := inputs[..n];
    m :| CapturedAt(stored, seen, m) && SeenAfter(stored, seen, m);
    p :| m < p < |seen| && Shows(seen[p].v, stored);
  }

  lemma AdvanceConfirms(est: Sts, v: View, a: Action)
    requires WellFormed(a) && a.phase == WaitBEAlive
    requires v.later <= (if a.timer.deadlineAt.Some? then a.timer.deadlineAt.value else v.now + 400)
    requires Spec.RunStateMachine(est, v, a).action.phase == TriggerDrain
    ensures a.stableObservations == 1 && Shows(v, a)
  {
  }
}
