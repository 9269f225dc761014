/** The scale-in read off the backend lists: each verdict, each command, and that the protocol can finish. */
module ScaleInReadings {
  import opened Wrappers
  import opened GoStrings
  import opened IntSets
  import opened Decommission
  import opened ScaleIn

  // ----- the verdicts

  /** The positions of the backends in service. */
  ghost function Serving(nodes: seq<Node>): set<int> {
    set i | 0 <= i < |nodes| && !nodes[i].decommissioned
  }

  lemma {:induction false} CountIsZeroIff(nodes: seq<Node>, p: Node -> bool)
    ensures Count(nodes, p) == 0 <==> forall i | 0 <= i < |nodes| :: !p(nodes[i])
  {
    if nodes != [] {
      var k := |nodes| - 1;
      CountIsZeroIff(nodes[..k], p);
      assert forall i | 0 <= i < k :: nodes[..k][i] == nodes[i];
    }
  }

  lemma {:induction false} ServingSize(nodes: seq<Node>)
    ensures |Serving(nodes)| == Count(nodes, InService)
  {
    if nodes == [] {
      assert Serving(nodes) == {};
    } else {
      var k := |nodes| - 1;
      ServingSize(nodes[..k]);
      assert Serving(nodes) == Serving(nodes[..k]) + if nodes[k].decommissioned then {} else {k};
    }
  }

  ghost predicate NoneDecommissioned(nodes: seq<Node>) {
    forall i | 0 <= i < |nodes| :: !nodes[i].decommissioned
  }

  ghost predicate DecommissionedAreEmpty(nodes: seq<Node>) {
    forall i | 0 <= i < |nodes| && nodes[i].decommissioned :: nodes[i].tablets == 0
  }

  /** The check accepts a decommission when none has begun and there is a surplus; it is going on when as many
      serve as are kept and a decommissioned backend still has tablets; it is over when none has any; anything
      else is unknown. */
  lemma VerdictIff(nodes: seq<Node>, keep: int)
    ensures ProgressCheck(nodes, keep) == Acceptable <==> NoneDecommissioned(nodes) && |nodes| > keep
    ensures ProgressCheck(nodes, keep) == Decommissioning <==> |Serving(nodes)| == keep && !DecommissionedAreEmpty(nodes)
    ensures ProgressCheck(nodes, keep) == Decommissioned <==> |Serving(nodes)| == keep && DecommissionedAreEmpty(nodes)
  {
    hide Count, Serving;
    ServingSize(nodes);
    CountsAddUp(nodes);
    CountIsZeroIff(nodes, Draining);
    CountIsZeroIff(nodes, Drained);
  }

  // ----- the commands

  /** x lists exactly the nodes with an ordinal at or above keep. */
  ghost predicate IsSurplusOf(x: seq<Node>, nodes: seq<Node>, ords: seq<int>, keep: int)
    requires |ords| == |nodes|
  {
    forall n :: n in x <==> exists i :: 0 <= i < |nodes| && ords[i] >= keep && nodes[i] == n
  }

  ghost predicate NoSurplus(ords: seq<int>, keep: int) {
    forall i | 0 <= i < |ords| :: ords[i] < keep
  }

  lemma SurplusIs(fe: FeView, keep: int, ords: seq<int>)
    requires fe.acted.Some? && Numbered(fe.acted.value, ords)
    ensures var s := Surplus(fe, keep);
            s.Some? && IsSurplusOf(s.value, fe.acted.value, ords, keep) && (s.value == [] <==> NoSurplus(ords, keep))
  {
    hide TrailingNumber, ScaledOut;
    ScaledOutMembers(fe.acted.value, ords, keep);
    var x := ScaledOut(fe.acted.value, keep).value;
    if x != [] { assert x[0] in x; }
    if i :| 0 <= i < |ords| && ords[i] >= keep { assert fe.acted.value[i] in x; }
  }

  /** Exactly when the decommission command is sent, when the drop command is, and on which nodes. */
  lemma CommandsIff(fe: FeView, keep: int, phase: GroupPhase, ords: seq<int>)
    requires fe.checked.Some? && fe.acted.Some? && Numbered(fe.acted.value, ords)
    ensures var r, checked := ScaleByDecommission(fe, keep, phase), fe.checked.value;
            if NoneDecommissioned(checked) && |checked| > keep then
              if NoSurplus(ords, keep) then r.commands == [] && r.ok && r.phase == DecommissionRunning
              else
                && |r.commands| == 1 && r.commands[0].DecommissionBE?
                && IsSurplusOf(r.commands[0].nodes, fe.acted.value, ords, keep)
                && (r.ok <==> !fe.commandFails) && r.phase == (if r.ok then DecommissionRunning else ScaleDownFailed)
            else if |Serving(checked)| == keep && DecommissionedAreEmpty(checked) then
              && r.ok && r.phase == Scaling
              && if NoSurplus(ords, keep) then r.commands == []
                 else |r.commands| == 1 && r.commands[0].DropBE? && IsSurplusOf(r.commands[0].nodes, fe.acted.value, ords, keep)
            else r.commands == [] && r.ok && r.phase == DecommissionRunning
    ensures var r, checked := ScaleByDecommission(fe, keep, phase), fe.checked.value;
            r.verdict == Some(if NoneDecommissioned(checked) && |checked| > keep then Acceptable
                              else if |Serving(checked)| != keep then Unknown
                              else if DecommissionedAreEmpty(checked) then Decommissioned
                              else Decommissioning)
  {
    hide TrailingNumber, ProgressCheck, Surplus, Serving;
    VerdictIff(fe.checked.value, keep);
    SurplusIs(fe, keep, ords);
  }

  /** A list that cannot be read sends nothing: without the first nothing is known and nothing changes;
      without the second a decommission fails and a drop is passed over. */
  lemma UnreadSendsNothing(fe: FeView, keep: int, phase: GroupPhase)
    ensures var r := ScaleByDecommission(fe, keep, phase);
            && (fe.checked.None? ==> r == ScaleResult(phase, [], false, None))
            && (fe.acted.None? ==> r.commands == [])
            && (fe.checked.Some? && fe.acted.None? && NoneDecommissioned(fe.checked.value) && |fe.checked.value| > keep ==>
                  !r.ok && r.phase == ScaleDownFailed)
  {
    hide ProgressCheck;
    if fe.checked.Some? { VerdictIff(fe.checked.value, keep); }
  }

  /** What comes before the apply: nothing, unless the count is to fall or a scale-in is unfinished; nothing
      but an error without a connection; the decommission protocol if enabled; else the surplus is dropped. */
  lemma PreApplyOutcome(decommission: bool, fe: FeView, desired: int, existing: int, phase: GroupPhase, ords: seq<int>)
    requires fe.acted.Some? ==> Numbered(fe.acted.value, ords)
    ensures var r := PreApply(decommission, fe, desired, existing, phase);
            if desired >= existing && phase != DecommissionRunning && phase != ScaleDownFailed then
              r == ScaleResult(phase, [], true, None)
            else if !fe.connected then r == ScaleResult(phase, [], false, None)
            else if decommission then r == ScaleByDecommission(fe, desired, phase)
            else
              && r.verdict.None? && r.phase == (if r.ok then Scaling else ScaleDownFailed)
              && if fe.acted.None? then r.commands == [] && !r.ok
                 else if NoSurplus(ords, desired) then r.commands == [] && r.ok
                 else
                   && |r.commands| == 1 && r.commands[0].DropBE?
                   && IsSurplusOf(r.commands[0].nodes, fe.acted.value, ords, desired) && (r.ok <==> !fe.commandFails)
  {
    hide TrailingNumber, ScaleByDecommission, ScaledOut;
    if fe.acted.Some? { SurplusIs(fe, desired, ords); }
  }

  // ----- the protocol can finish

  /** The backends with those at or above keep decommissioned, and emptied if asked. */
  ghost function Marking(nodes: seq<Node>, ords: seq<int>, keep: int, emptied: bool): (r: seq<Node>)
    requires |ords| == |nodes|
    ensures |r| == |nodes|
  {
    seq(|nodes|, i requires 0 <= i < |nodes| =>
      if ords[i] < keep then nodes[i]
      else Node(nodes[i].host, true, if emptied then 0 else nodes[i].tablets))
  }

  lemma {:induction false} WithoutMembers(nodes: seq<Node>, gone: set<Node>)
    ensures forall n :: n in Without(nodes, gone) <==> n in nodes && n !in gone
  {
    if nodes != [] {
      WithoutMembers(nodes[..|nodes| - 1], gone);
      assert nodes == nodes[..|nodes| - 1] + [nodes[|nodes| - 1]];
    }
  }

  lemma DecommissionStep(nodes: seq<Node>, ords: seq<int>, keep: nat, fe: FeView)
    requires Numbered(nodes, ords) && NoneDecommissioned(nodes) && |nodes| > keep && !NoSurplus(ords, keep)
    requires fe == FeView(true, Some(nodes), Some(nodes), false)
    ensures Step(State(nodes, []), State(Marking(nodes, ords, keep, false), []), keep, fe)
  {
    hide TrailingNumber, ScaleByDecommission;
    CommandsIff(fe, keep, Reconciling, ords);
    var commands := ScaleByDecommission(fe, keep, Reconciling).commands;
    var after := Marking(nodes, ords, keep, false);
    assert Marked(nodes, commands[0].nodes, after);
    assert Migrated(nodes, nodes);
    assert Effect(State(nodes, []), nodes, [], State(after, []), commands);
  }

  lemma MigrationStep(nodes: seq<Node>, ords: seq<int>, keep: nat, fe: FeView)
    requires |ords| == |nodes| && fe == FeView(true, None, None, false)
    ensures Step(State(Marking(nodes, ords, keep, false), []), State(Marking(nodes, ords, keep, true), []), keep, fe)
  {
    UnreadSendsNothing(fe, keep, Reconciling);
    hide ScaleByDecommission;
    var before, after := Marking(nodes, ords, keep, false), Marking(nodes, ords, keep, true);
    assert Migrated(before, after);
    assert Effect(State(before, []), after, [], State(after, []), ScaleByDecommission(fe, keep, Reconciling).commands);
  }

  lemma MarkingServes(nodes: seq<Node>, ords: seq<int>, keep: nat)
    requires Numbered(nodes, ords) && NoneDecommissioned(nodes)
    ensures var empty := Marking(nodes, ords, keep, true);
            Numbered(empty, ords) && DecommissionedAreEmpty(empty) && forall i | 0 <= i < |ords| :: InService(empty[i]) <==> ords[i] < keep
  {
    hide TrailingNumber;
  }

  lemma KeptOrdinals(nodes: seq<Node>, ords: seq<int>, keep: nat)
    requires |ords| == |nodes| && Covers(ords, keep) && forall i | 0 <= i < |ords| :: InService(nodes[i]) <==> ords[i] < keep
    ensures InServiceOrdinals(nodes, ords) == Range(0, keep)
  {
    hide InService;
    forall o | o in Range(0, keep) ensures o in InServiceOrdinals(nodes, ords) {
      assert o in ords;
      var i :| 0 <= i < |ords| && ords[i] == o;
      assert InService(nodes[i]);
    }
    forall o | o in InServiceOrdinals(nodes, ords) ensures o in Range(0, keep) {}
  }

  /** Once the surplus is decommissioned and empty, as many backends serve as are kept. */
  lemma KeptServe(nodes: seq<Node>, ords: seq<int>, keep: nat)
    requires Numbered(nodes, ords) && Covers(ords, keep) && NoneDecommissioned(nodes)
    ensures var empty := Marking(nodes, ords, keep, true);
            Numbered(empty, ords) && |Serving(empty)| == keep && DecommissionedAreEmpty(empty)
  {
    hide TrailingNumber, Serving, InServiceOrdinals, InService, Count, DecommissionedAreEmpty;
    var empty := Marking(nodes, ords, keep, true);
    MarkingServes(nodes, ords, keep);
    KeptOrdinals(empty, ords, keep);
    ServingSize(empty);
    InServiceCount(empty, ords);
  }

  lemma DropStep(nodes: seq<Node>, ords: seq<int>, keep: nat, fe: FeView) returns (end: State)
    requires Numbered(nodes, ords) && Covers(ords, keep) && NoneDecommissioned(nodes) && !NoSurplus(ords, keep)
    requires var empty := Marking(nodes, ords, keep, true); fe == FeView(true, Some(empty), Some(empty), false)
    ensures Step(State(Marking(nodes, ords, keep, true), []), end, keep, fe)
    ensures IsSurplusOf(end.dropped, Marking(nodes, ords, keep, true), ords, keep)
    ensures end.nodes == Without(Marking(nodes, ords, keep, true), set n | n in end.dropped)
  {
    hide TrailingNumber, ScaleByDecommission, Without;
    var empty := Marking(nodes, ords, keep, true);
    KeptServe(nodes, ords, keep);
    NotAccepted(nodes, ords, keep);
    CommandsIff(fe, keep, Reconciling, ords);
    var commands := ScaleByDecommission(fe, keep, Reconciling).commands;
    var gone := commands[0].nodes;
    end := State(Without(empty, set n | n in gone), gone);
    assert Migrated(empty, empty);
    assert [] + gone == gone;
    assert Effect(State(empty, []), empty, gone, end, commands);
  }

  lemma NotAccepted(nodes: seq<Node>, ords: seq<int>, keep: nat)
    requires |ords| == |nodes| && !NoSurplus(ords, keep)
    ensures !NoneDecommissioned(Marking(nodes, ords, keep, true))
  {
    var i :| 0 <= i < |ords| && ords[i] >= keep;
    assert Marking(nodes, ords, keep, true)[i].decommissioned;
  }

  /** From any group whose backends all serve, with none missing below the kept amount, the protocol can come
      to the end where exactly the surplus has been dropped, each backend decommissioned and empty, and exactly
      the kept backends are left as they were. */
  lemma ScaleInCanFinish(nodes: seq<Node>, ords: seq<int>, keep: nat) returns (run: seq<State>, views: seq<FeView>)
    requires Numbered(nodes, ords) && Covers(ords, keep) && NoneDecommissioned(nodes) && !NoSurplus(ords, keep)
    ensures |run| == |views| + 1 && run[0] == State(nodes, [])
    ensures forall k | 0 <= k < |views| :: Step(run[k], run[k + 1], keep, views[k])
    ensures forall n :: n in run[|views|].nodes <==> exists i :: 0 <= i < |nodes| && ords[i] < keep && n == nodes[i]
    ensures forall n :: n in run[|views|].dropped
                   <==> exists i :: 0 <= i < |nodes| && ords[i] >= keep && n == Node(nodes[i].host, true, 0)
  {
    hide TrailingNumber, Step, Without;
    var marked, empty := Marking(nodes, ords, keep, false), Marking(nodes, ords, keep, true);
    MoreThanKept(ords, keep);
    var f1, f2, f3 := FeView(true, Some(nodes), Some(nodes), false), FeView(true, None, None, false),
                      FeView(true, Some(empty), Some(empty), false);
    DecommissionStep(nodes, ords, keep, f1);
    MigrationStep(nodes, ords, keep, f2);
    var end := DropStep(nodes, ords, keep, f3);
    run, views := [State(nodes, []), State(marked, []), State(empty, []), end], [f1, f2, f3];
    WithoutMembers(empty, set n | n in end.dropped);
    LeftAndDropped(nodes, ords, keep, end);
  }

  lemma LeftAndDropped(nodes: seq<Node>, ords: seq<int>, keep: nat, end: State)
    requires |ords| == |nodes| && NoneDecommissioned(nodes)
    requires IsSurplusOf(end.dropped, Marking(nodes, ords, keep, true), ords, keep)
    requires forall n :: n in end.nodes <==> n in Marking(nodes, ords, keep, true) && n !in end.dropped
    ensures forall n :: n in end.nodes <==> exists i :: 0 <= i < |nodes| && ords[i] < keep && n == nodes[i]
    ensures forall n :: n in end.dropped <==> exists i :: 0 <= i < |nodes| && ords[i] >= keep && n == Node(nodes[i].host, true, 0)
  {
    var empty := Marking(nodes, ords, keep, true);
    forall n ensures n in end.dropped <==> exists i :: 0 <= i < |nodes| && ords[i] >= keep && n == Node(nodes[i].host, true, 0) {
      if n in end.dropped {
        var i :| 0 <= i < |nodes| && ords[i] >= keep && empty[i] == n;
        assert n == Node(nodes[i].host, true, 0);
      }
      if i :| 0 <= i < |nodes| && ords[i] >= keep && n == Node(nodes[i].host, true, 0) { assert empty[i] == n; }
    }
    forall n ensures n in end.nodes <==> exists i :: 0 <= i < |nodes| && ords[i] < keep && n == nodes[i] {
      if n in end.nodes {
        var i :| 0 <= i < |nodes| && empty[i] == n;
        assert ords[i] < keep && n == nodes[i];
      }
      if i :| 0 <= i < |nodes| && ords[i] < keep && n == nodes[i] {
        assert empty[i] == n && !n.decommissioned;
      }
    }
  }

  /** With none missing below keep and some ordinal at or above it, there are more than keep ordinals. */
  lemma MoreThanKept(ords: seq<int>, keep: nat)
    requires Covers(ords, keep) && !NoSurplus(ords, keep)
    ensures |ords| > keep
  {
    var all := set o | o in ords;
    DistinctSize(ords);
    var i :| 0 <= i < |ords| && ords[i] >= keep;
    var below := Range(0, keep);
    assert below < all by { assert ords[i] in all; }
    StrictSubsetIsSmaller(below, all);
  }

  lemma {:induction false} DistinctSize(ords: seq<int>)
    requires forall i, j | 0 <= i < j < |ords| :: ords[i] != ords[j]
    ensures |set o | o in ords| == |ords|
  {
    if ords != [] {
      var k := |ords| - 1;
      DistinctSize(ords[..k]);
      assert (set o | o in ords) == (set o | o in ords[..k]) + {ords[k]};
    }
  }

  lemma StrictSubsetIsSmaller(a: set<int>, b: set<int>)
    requires a < b
    ensures |a| < |b|
  {
    assert b == a + (b - a);
    assert |b| == |a| + |b - a|;
  }
}
