/** What a compute group's reconcile does before applying a smaller StatefulSet: decommission the
    surplus backends and wait, or drop them. */
module ScaleIn {
  import opened Wrappers
  import opened GoStrings
  import opened Decommission

  datatype GroupPhase =
    | Reconciling | Ready | Scaling | ScaleDownFailed | DecommissionRunning
    | GracefulRolling | GracefulScaling | GracefulDeleting | OtherGroupPhase

  class ComputeGroupStatus {
    var phase: GroupPhase

    constructor (phase: GroupPhase)
      ensures this.phase == phase
    {
      this.phase := phase;
    }
  }

  /** The FE's answers during one reconcile: the backend list is read once for the progress check and
      again to pick the nodes to act on. */
  datatype FeView = FeView(connected: bool, checked: Option<seq<Node>>, acted: Option<seq<Node>>, commandFails: bool)

  datatype FeCommand = DecommissionBE(nodes: seq<Node>) | DropBE(nodes: seq<Node>)

  datatype ScaleResult = ScaleResult(phase: GroupPhase, commands: seq<FeCommand>, ok: bool, verdict: Option<Verdict>)

  /** The surplus nodes; None when the list call fails or a host has no ordinal. */
  function Surplus(fe: FeView, keep: int): Option<seq<Node>> {
    if fe.acted.None? then None else ScaledOut(fe.acted.value, keep)
  }

  function DropSurplus(fe: FeView, keep: int): (seq<FeCommand>, bool) {
    match Surplus(fe, keep)
    case None => ([], false)
    case Some(nodes) => if nodes == [] then ([], true) else ([DropBE(nodes)], !fe.commandFails)
  }

  function DecommissionSurplus(fe: FeView, keep: int): (seq<FeCommand>, bool) {
    match Surplus(fe, keep)
    case None => ([], false)
    case Some(nodes) => if nodes == [] then ([], true) else ([DecommissionBE(nodes)], !fe.commandFails)
  }

  function ScaleByDecommission(fe: FeView, keep: int, phase: GroupPhase): ScaleResult {
    if fe.checked.None? then ScaleResult(phase, [], false, None)
    else
      var verdict := ProgressCheck(fe.checked.value, keep);
      match verdict
      case Acceptable =>
        var (commands, ok) := DecommissionSurplus(fe, keep);
        ScaleResult(if ok then DecommissionRunning else ScaleDownFailed, commands, ok, Some(verdict))
      case Decommissioning => ScaleResult(DecommissionRunning, [], true, Some(verdict))
      case Unknown => ScaleResult(DecommissionRunning, [], true, Some(verdict))
      case Decommissioned => ScaleResult(Scaling, DropSurplus(fe, keep).0, true, Some(verdict))
  }

  function ScaleOut(decommission: bool, fe: FeView, keep: int, phase: GroupPhase): ScaleResult {
    if !fe.connected then ScaleResult(phase, [], false, None)
    else if decommission then ScaleByDecommission(fe, keep, phase)
    else
      var (commands, ok) := DropSurplus(fe, keep);
      ScaleResult(if ok then Scaling else ScaleDownFailed, commands, ok, None)
  }

  predicate IsScaleDown(desired: int, existing: int, phase: GroupPhase) {
    desired < existing || phase == DecommissionRunning || phase == ScaleDownFailed
  }

  /** preApplyStatefulSet: scale in when the operation asks for it, else leave everything alone. */
  function PreApply(decommission: bool, fe: FeView, desired: int, existing: int, phase: GroupPhase): ScaleResult {
    if IsScaleDown(desired, existing, phase) then ScaleOut(decommission, fe, desired, phase)
    else ScaleResult(phase, [], true, None)
  }

  // ----- the methods

  method ScaledOutBENodesByDrop(fe: FeView, keep: int) returns (commands: seq<FeCommand>, ok: bool)
    ensures (commands, ok) == DropSurplus(fe, keep)
  {
    if fe.acted.None? { return [], false; }
    var nodes := GetScaledOutBENode(fe.acted.value, keep);
    if nodes.None? { return [], false; }
    if |nodes.value| == 0 { return [], true; }
    return [DropBE(nodes.value)], !fe.commandFails;
  }

  method DecommissionBENodes(fe: FeView, keep: int) returns (commands: seq<FeCommand>, ok: bool)
    ensures (commands, ok) == DecommissionSurplus(fe, keep)
  {
    if fe.acted.None? { return [], false; }
    var nodes := GetScaledOutBENode(fe.acted.value, keep);
    if nodes.None? { return [], false; }
    if |nodes.value| == 0 { return [], true; }
    return [DecommissionBE(nodes.value)], !fe.commandFails;
  }

  method ScaledOutBENodesByDecommission(status: ComputeGroupStatus, fe: FeView, keep: int)
    returns (commands: seq<FeCommand>, ok: bool, verdict: Option<Verdict>)
    modifies status
    ensures ScaleResult(status.phase, commands, ok, verdict) == ScaleByDecommission(fe, keep, old(status.phase))
  {
    if fe.checked.None? { return [], false, None; }
    var counts := ConstructDecommissionTaskStatus(fe.checked.value, keep);
    verdict := Some(DecommissionPhase(counts));
    if verdict.value == Acceptable {
      commands, ok := DecommissionBENodes(fe, keep);
      status.phase := if ok then DecommissionRunning else ScaleDownFailed;
      return;
    }
    commands, ok := [], true;
    if verdict.value == Decommissioned {
      var dropped;
      commands, dropped := ScaledOutBENodesByDrop(fe, keep);
      status.phase := Scaling;
    } else {
      status.phase := DecommissionRunning;
    }
  }

  method PreApplyStatefulSet(status: ComputeGroupStatus, decommission: bool, fe: FeView, desired: int, existing: int)
    returns (commands: seq<FeCommand>, ok: bool, verdict: Option<Verdict>)
    modifies status
    ensures ScaleResult(status.phase, commands, ok, verdict)
         == PreApply(decommission, fe, desired, existing, old(status.phase))
  {
    if !IsScaleDown(desired, existing, status.phase) { return [], true, None; }
    if !fe.connected { return [], false, None; }
    if decommission {
      commands, ok, verdict := ScaledOutBENodesByDecommission(status, fe, desired);
    } else {
      commands, ok := ScaledOutBENodesByDrop(fe, desired);
      verdict := None;
      status.phase := if ok then Scaling else ScaleDownFailed;
    }
  }

  // ----- runs of the decommission protocol

  /** The FE's backends and the backends dropped so far, each as it was when it was dropped. */
  datatype State = State(nodes: seq<Node>, dropped: seq<Node>)

  /** Tablets may move, but a decommissioned backend only ever loses them. */
  ghost predicate Migrated(before: seq<Node>, after: seq<Node>) {
    && |after| == |before|
    && forall i | 0 <= i < |before| ::
         && after[i].host == before[i].host
         && after[i].decommissioned == before[i].decommissioned
         && (before[i].decommissioned ==> after[i].tablets <= before[i].tablets)
  }

  /** A decommission command marks any part of its nodes. */
  ghost predicate Marked(before: seq<Node>, nodes: seq<Node>, after: seq<Node>) {
    && |after| == |before|
    && forall i | 0 <= i < |before| ::
         after[i] == before[i] || (before[i] in nodes && after[i] == before[i].(decommissioned := true))
  }

  function Without(nodes: seq<Node>, gone: set<Node>): seq<Node> {
    if nodes == [] then []
    else Without(nodes[..|nodes| - 1], gone) + if nodes[|nodes| - 1] in gone then [] else [nodes[|nodes| - 1]]
  }

  /** One reconcile: check, tablets migrate, then the commands take any part of their effect. */
  ghost predicate Step(s: State, s': State, keep: nat, fe: FeView) {
    && (fe.checked.Some? ==> fe.checked.value == s.nodes)
    && exists mid: seq<Node>, gone: seq<Node> ::
         && Migrated(s.nodes, mid)
         && (fe.acted.Some? ==> fe.acted.value == mid)
         && Effect(s, mid, gone, s', ScaleByDecommission(fe, keep, Reconciling).commands)
  }

  ghost predicate Effect(s: State, mid: seq<Node>, gone: seq<Node>, s': State, commands: seq<FeCommand>) {
    if commands == [] then s' == State(mid, s.dropped)
    else if commands[0].DecommissionBE? then Marked(mid, commands[0].nodes, s'.nodes) && s'.dropped == s.dropped
    else
      && (forall n | n in gone :: n in commands[0].nodes)
      && s' == State(Without(mid, set n | n in gone), s.dropped + gone)
  }

  ghost predicate Safe(s: State, ords: seq<int>, keep: nat) {
    && Numbered(s.nodes, ords)
    && Covers(ords, keep)
    && KeptInService(s.nodes, ords, keep)
    && forall n | n in s.dropped :: Drained(n) && TrailingNumber(n.host).Some? && TrailingNumber(n.host).value >= keep
  }

  lemma MigrationKeeps(before: seq<Node>, ords: seq<int>, after: seq<Node>)
    requires Numbered(before, ords) && Migrated(before, after)
    ensures Numbered(after, ords)
    ensures forall keep: nat | KeptInService(before, ords, keep) :: KeptInService(after, ords, keep)
    ensures forall keep: nat | AboveDrained(before, ords, keep) :: AboveDrained(after, ords, keep)
  {
    hide TrailingNumber;
  }

  lemma {:induction false} WithoutKeeps(nodes: seq<Node>, ords: seq<int>, gone: set<Node>) returns (left: seq<int>)
    requires Numbered(nodes, ords)
    requires forall i, j | 0 <= i < j < |ords| :: ords[i] != ords[j]
    ensures Numbered(Without(nodes, gone), left)
    ensures forall i, j | 0 <= i < j < |left| :: left[i] != left[j]
    ensures forall j | 0 <= j < |left| :: exists i :: 0 <= i < |nodes| && left[j] == ords[i] && Without(nodes, gone)[j] == nodes[i]
    ensures forall i | 0 <= i < |nodes| && nodes[i] !in gone :: ords[i] in left
  {
    hide TrailingNumber, Last, Split;
    if nodes == [] {
      left := [];
    } else {
      var k := |nodes| - 1;
      var before := WithoutKeeps(nodes[..k], ords[..k], gone);
      left := before + if nodes[k] in gone then [] else [ords[k]];
      var kept := Without(nodes, gone);
      forall j | 0 <= j < |left|
        ensures exists i :: 0 <= i < |nodes| && left[j] == ords[i] && kept[j] == nodes[i]
      {
        if j < |before| {
          var i :| 0 <= i < k && before[j] == ords[..k][i] && Without(nodes[..k], gone)[j] == nodes[..k][i];
          assert left[j] == ords[i] && kept[j] == nodes[i];
        } else {
          assert left[j] == ords[k] && kept[j] == nodes[k];
        }
      }
    }
  }

  /** n is one of the nodes whose ordinal is at or above the kept amount. */
  ghost predicate IsSurplus(n: Node, nodes: seq<Node>, ords: seq<int>, keep: nat)
    requires |ords| == |nodes|
  {
    exists i :: 0 <= i < |nodes| && ords[i] >= keep && n == nodes[i]
  }

  lemma MarkingKeeps(mid: seq<Node>, ords: seq<int>, keep: nat, marked: seq<Node>, after: seq<Node>)
    requires Numbered(mid, ords) && KeptInService(mid, ords, keep) && Marked(mid, marked, after)
    requires forall n | n in marked :: IsSurplus(n, mid, ords, keep)
    ensures Numbered(after, ords) && KeptInService(after, ords, keep)
  {
    hide TrailingNumber;
    forall i | 0 <= i < |after| && ords[i] < keep ensures InService(after[i]) {
      assert mid[i] in marked ==> IsSurplus(mid[i], mid, ords, keep);
    }
  }

  lemma DroppingKeeps(mid: seq<Node>, ords: seq<int>, keep: nat, gone: seq<Node>) returns (left: seq<int>)
    requires Numbered(mid, ords) && Covers(ords, keep) && KeptInService(mid, ords, keep) && AboveDrained(mid, ords, keep)
    requires forall n | n in gone :: IsSurplus(n, mid, ords, keep)
    ensures var kept := Without(mid, set n | n in gone);
            Numbered(kept, left) && Covers(left, keep) && KeptInService(kept, left, keep)
    ensures forall n | n in gone :: Drained(n) && TrailingNumber(n.host).Some? && TrailingNumber(n.host).value >= keep
  {
    hide TrailingNumber;
    forall n | n in gone ensures Drained(n) && TrailingNumber(n.host).Some? && TrailingNumber(n.host).value >= keep {
      var i :| 0 <= i < |mid| && ords[i] >= keep && n == mid[i];
    }
    left := WithoutKeeps(mid, ords, set n | n in gone);
    forall o: nat | o < keep ensures o in left {
      assert o in ords;
      var i :| 0 <= i < |ords| && ords[i] == o;
      assert TrailingNumber(mid[i].host) == Some(ords[i]);
    }
  }

  lemma StepKeepsSafe(s: State, ords: seq<int>, s': State, keep: nat, fe: FeView) returns (ords': seq<int>)
    requires Safe(s, ords, keep) && Step(s, s', keep, fe)
    ensures Safe(s', ords', keep)
  {
    hide TrailingNumber, ProgressCheck, ScaledOut;
    var commands := ScaleByDecommission(fe, keep, Reconciling).commands;
    var mid: seq<Node>, gone: seq<Node> :| Migrated(s.nodes, mid) && (fe.acted.Some? ==> fe.acted.value == mid)
                                        && Effect(s, mid, gone, s', commands);
    MigrationKeeps(s.nodes, ords, mid);
    if commands == [] {
      ords' := ords;
    } else {
      ScaledOutMembers(mid, ords, keep);
      assert forall n | n in commands[0].nodes :: IsSurplus(n, mid, ords, keep);
      if commands[0].DropBE? {
        KeptInServiceImpliesDrained(s.nodes, ords, keep);
        ords' := DroppingKeeps(mid, ords, keep, gone);
      } else {
        MarkingKeeps(mid, ords, keep, commands[0].nodes, s'.nodes);
        ords' := ords;
      }
    }
  }

  /** Over every run of check, decommission, migrate and drop that starts with the kept backends in
      service: every backend dropped was decommissioned, held no tablet, and had an ordinal at or
      above the kept amount; and the kept backends are still there and in service. */
  lemma {:induction false} NoDataIsDropped(run: seq<State>, views: seq<FeView>, keep: nat, start: seq<int>, i: nat)
    returns (ords: seq<int>)
    requires |run| == |views| + 1 && i < |run|
    requires forall k | 0 <= k < |views| :: Step(run[k], run[k + 1], keep, views[k])
    requires run[0].dropped == [] && Numbered(run[0].nodes, start) && Covers(start, keep) && KeptInService(run[0].nodes, start, keep)
    ensures forall n | n in run[i].dropped :: Drained(n) && TrailingNumber(n.host).Some? && TrailingNumber(n.host).value >= keep
    ensures Numbered(run[i].nodes, ords) && Covers(ords, keep) && KeptInService(run[i].nodes, ords, keep)
  {
    hide TrailingNumber;
    if i == 0 {
      ords := start;
    } else {
      var before := NoDataIsDropped(run, views, keep, start, i - 1);
      ords := StepKeepsSafe(run[i - 1], before, run[i], keep, views[i - 1]);
    }
  }
}
