/** Scaling a compute group in through decommissioning: the count-based phase decision, the ordinal
    filter that picks the nodes to act on, and why the two agree. */
module Decommission {
  import opened Wrappers
  import opened GoStrings
  import opened IntSets
  import PodNames

  datatype Node = Node(host: string, decommissioned: bool, tablets: nat)

  datatype Verdict = Decommissioned | Decommissioning | Acceptable | Unknown

  datatype TaskStatus = TaskStatus(all: nat, undecommissioned: nat, decommissioning: nat, decommissioned: nat, keep: int)

  // ----- the phase decision

  predicate InService(n: Node) { !n.decommissioned }
  predicate Draining(n: Node) { n.decommissioned && n.tablets != 0 }
  predicate Drained(n: Node) { n.decommissioned && n.tablets == 0 }

  function Count(nodes: seq<Node>, p: Node -> bool): nat {
    if nodes == [] then 0
    else Count(nodes[..|nodes| - 1], p) + if p(nodes[|nodes| - 1]) then 1 else 0
  }

  method ConstructDecommissionTaskStatus(nodes: seq<Node>, keep: int) returns (s: TaskStatus)
    ensures s == TaskStatus(|nodes|, Count(nodes, InService), Count(nodes, Draining), Count(nodes, Drained), keep)
  {
    var undecommissioned, decommissioning, decommissioned := 0, 0, 0;
    for i := 0 to |nodes|
      invariant undecommissioned == Count(nodes[..i], InService)
      invariant decommissioning == Count(nodes[..i], Draining)
      invariant decommissioned == Count(nodes[..i], Drained)
    {
      assert nodes[..i + 1][..i] == nodes[..i];
      if !nodes[i].decommissioned {
        undecommissioned := undecommissioned + 1;
      } else if nodes[i].tablets == 0 {
        decommissioned := decommissioned + 1;
      } else {
        decommissioning := decommissioning + 1;
      }
    }
    assert nodes[..|nodes|] == nodes;
    s := TaskStatus(|nodes|, undecommissioned, decommissioning, decommissioned, keep);
  }

  function DecommissionPhase(s: TaskStatus): Verdict {
    if s.decommissioning == 0 && s.decommissioned == 0 && s.undecommissioned > s.keep then Acceptable
    else if s.undecommissioned == s.keep && s.decommissioning > 0 then Decommissioning
    else if s.undecommissioned == s.keep && s.undecommissioned + s.decommissioned == s.all then Decommissioned
    else Unknown
  }

  function ProgressCheck(nodes: seq<Node>, keep: int): Verdict {
    DecommissionPhase(
      TaskStatus(|nodes|, Count(nodes, InService), Count(nodes, Draining), Count(nodes, Drained), keep))
  }

  // ----- the ordinal filter

  /** The nodes at or above the kept amount; None when some host has no ordinal. */
  function ScaledOut(nodes: seq<Node>, keep: int): Option<seq<Node>> {
    if nodes == [] then Some([])
    else
      var last := nodes[|nodes| - 1];
      var before := ScaledOut(nodes[..|nodes| - 1], keep);
      if before.None? || TrailingNumber(last.host).None? then None
      else if TrailingNumber(last.host).value >= keep then Some(before.value + [last])
      else before
  }

  lemma {:induction false} ScaledOutPrefixFails(nodes: seq<Node>, k: nat, keep: int)
    requires k <= |nodes| && ScaledOut(nodes[..k], keep).None?
    ensures ScaledOut(nodes, keep).None?
    decreases |nodes|
  {
    if k == |nodes| {
      assert nodes[..k] == nodes;
    } else {
      assert nodes[..|nodes| - 1][..k] == nodes[..k];
      ScaledOutPrefixFails(nodes[..|nodes| - 1], k, keep);
    }
  }

  method GetScaledOutBENode(nodes: seq<Node>, keep: int) returns (r: Option<seq<Node>>)
    ensures r == ScaledOut(nodes, keep)
  {
    var dropNodes: seq<Node> := [];
    for i := 0 to |nodes|
      invariant ScaledOut(nodes[..i], keep) == Some(dropNodes)
    {
      assert nodes[..i + 1][..i] == nodes[..i];
      var podNum := TrailingNumber(nodes[i].host);
      if podNum.None? {
        ScaledOutPrefixFails(nodes, i + 1, keep);
        return None;
      }
      if podNum.value >= keep { dropNodes := dropNodes + [nodes[i]]; }
    }
    assert nodes[..|nodes|] == nodes;
    return Some(dropNodes);
  }

  /** A backend registered under its pod's stable name is read with the pod's ordinal. */
  lemma PodNumberOfPod(sts: string, n: nat, domain: string)
    requires '.' !in sts && n < INT64_BOUND
    ensures TrailingNumber(PodNames.PodName(sts, n) + "." + domain) == Some(n)
    ensures TrailingNumber(PodNames.PodName(sts, n)) == Some(n)
  {
    var name := PodNames.PodName(sts, n);
    assert name == (sts + "-") + Decimal(n) + "" && name + "." + domain == (sts + "-") + Decimal(n) + ("." + domain);
    TrailingNumberIs(sts + "-", Decimal(n), "");
    TrailingNumberIs(sts + "-", Decimal(n), "." + domain);
    ParseIntOfDecimal(n, INT64_BOUND);
  }

  // ----- why the counts and the filter agree

  /** ords[i] is the ordinal read from the i-th backend's host. */
  ghost predicate Numbered(nodes: seq<Node>, ords: seq<int>) {
    |ords| == |nodes| && forall i | 0 <= i < |nodes| :: TrailingNumber(nodes[i].host) == Some(ords[i])
  }

  /** Ordinals are non-negative and distinct. */
  ghost predicate Ordinals(ords: seq<int>) {
    && (forall i | 0 <= i < |ords| :: ords[i] >= 0)
    && (forall i, j | 0 <= i < j < |ords| :: ords[i] != ords[j])
  }

  /** And none below keep is missing. */
  ghost predicate Covers(ords: seq<int>, keep: nat) {
    Ordinals(ords) && forall o: nat | o < keep :: o in ords
  }

  /** The filter keeps exactly the nodes whose ordinal is at or above the kept amount. */
  lemma {:induction false} ScaledOutMembers(nodes: seq<Node>, ords: seq<int>, keep: int)
    requires Numbered(nodes, ords)
    ensures ScaledOut(nodes, keep).Some?
    ensures forall n :: n in ScaledOut(nodes, keep).value <==> exists i :: 0 <= i < |nodes| && ords[i] >= keep && n == nodes[i]
  {
    hide TrailingNumber;
    if nodes != [] {
      var k := |nodes| - 1;
      ScaledOutMembers(nodes[..k], ords[..k], keep);
      forall n ensures n in ScaledOut(nodes, keep).value <==> exists i :: 0 <= i < |nodes| && ords[i] >= keep && n == nodes[i] {
        if n in ScaledOut(nodes[..k], keep).value {
          var i :| 0 <= i < k && ords[..k][i] >= keep && n == nodes[..k][i];
          assert ords[i] >= keep && n == nodes[i];
        }
        if i :| 0 <= i < |nodes| && ords[i] >= keep && n == nodes[i] {
          if i < k {
            assert ords[..k][i] >= keep && n == nodes[..k][i];
          }
        }
      }
    }
  }

  ghost function InServiceOrdinals(nodes: seq<Node>, ords: seq<int>): set<int>
    requires |ords| == |nodes|
  {
    set i | 0 <= i < |nodes| && InService(nodes[i]) :: ords[i]
  }

  lemma ServesOneMore(nodes: seq<Node>, ords: seq<int>, k: nat)
    requires |ords| == |nodes| == k + 1
    ensures InServiceOrdinals(nodes, ords)
         == InServiceOrdinals(nodes[..k], ords[..k]) + if InService(nodes[k]) then {ords[k]} else {}
  {
    var all, some := InServiceOrdinals(nodes, ords), InServiceOrdinals(nodes[..k], ords[..k]);
    forall o | o in all ensures o in some || (InService(nodes[k]) && o == ords[k]) {
      var i :| 0 <= i < |nodes| && InService(nodes[i]) && ords[i] == o;
      if i < k { assert InService(nodes[..k][i]) && ords[..k][i] == o; }
    }
    forall o | o in some ensures o in all {
      var i :| 0 <= i < k && InService(nodes[..k][i]) && ords[..k][i] == o;
      assert InService(nodes[i]) && ords[i] == o;
    }
  }

  lemma NotYetServed(nodes: seq<Node>, ords: seq<int>, o: int)
    requires |ords| == |nodes| && o !in ords
    ensures o !in InServiceOrdinals(nodes, ords)
  {
  }

  lemma {:induction false} InServiceCount(nodes: seq<Node>, ords: seq<int>)
    requires |ords| == |nodes|
    requires forall i, j | 0 <= i < j < |ords| :: ords[i] != ords[j]
    ensures |InServiceOrdinals(nodes, ords)| == Count(nodes, InService)
  {
    hide InServiceOrdinals;
    if nodes != [] {
      var k := |nodes| - 1;
      InServiceCount(nodes[..k], ords[..k]);
      ServesOneMore(nodes, ords, k);
      NotYetServed(nodes[..k], ords[..k], ords[k]);
    } else {
      NobodyServes(ords);
    }
  }

  lemma NobodyServes(ords: seq<int>)
    requires ords == []
    ensures InServiceOrdinals([], ords) == {}
  {
  }

  lemma {:induction false} CountsAddUp(nodes: seq<Node>)
    ensures Count(nodes, InService) + Count(nodes, Draining) + Count(nodes, Drained) == |nodes|
    ensures Count(nodes, Draining) == 0 ==> forall i | 0 <= i < |nodes| :: !Draining(nodes[i])
  {
    if nodes != [] {
      CountsAddUp(nodes[..|nodes| - 1]);
    }
  }

  /** No backend that stays was ever marked. */
  ghost predicate KeptInService(nodes: seq<Node>, ords: seq<int>, keep: int)
    requires |ords| == |nodes|
  {
    forall i | 0 <= i < |nodes| && ords[i] < keep :: InService(nodes[i])
  }

  /** Every backend above the kept amount is decommissioned and holds no tablet. */
  ghost predicate AboveDrained(nodes: seq<Node>, ords: seq<int>, keep: int)
    requires |ords| == |nodes|
  {
    forall i | 0 <= i < |nodes| && ords[i] >= keep :: Drained(nodes[i])
  }

  /** Every ordinal below keep has a backend in service. */
  ghost predicate ServingBelow(nodes: seq<Node>, ords: seq<int>, keep: nat)
    requires |ords| == |nodes|
  {
    forall o: nat | o < keep :: o in InServiceOrdinals(nodes, ords)
  }

  /** That is: none below keep is missing, and none was decommissioned. */
  lemma ServingBelowIff(nodes: seq<Node>, ords: seq<int>, keep: nat)
    requires |ords| == |nodes| && Ordinals(ords)
    ensures ServingBelow(nodes, ords, keep) <==> Covers(ords, keep) && KeptInService(nodes, ords, keep)
  {
    if ServingBelow(nodes, ords, keep) {
      forall o: nat | o < keep ensures o in ords {
        assert o in InServiceOrdinals(nodes, ords);
        var j :| 0 <= j < |nodes| && InService(nodes[j]) && ords[j] == o;
      }
      forall i | 0 <= i < |nodes| && ords[i] < keep ensures InService(nodes[i]) {
        assert ords[i] in InServiceOrdinals(nodes, ords);
        var j :| 0 <= j < |nodes| && InService(nodes[j]) && ords[j] == ords[i];
      }
    }
    if Covers(ords, keep) && KeptInService(nodes, ords, keep) {
      forall o: nat | o < keep ensures o in InServiceOrdinals(nodes, ords) {
        assert o in ords;
      }
    }
  }

  /** The pigeonhole argument: as many backends serve as are kept, so those that serve are the kept ones
      exactly when no other serves. */
  lemma DrainedIffServingBelow(nodes: seq<Node>, ords: seq<int>, keep: nat)
    requires |ords| == |nodes| && Ordinals(ords) && ProgressCheck(nodes, keep) == Decommissioned
    ensures AboveDrained(nodes, ords, keep) <==> ServingBelow(nodes, ords, keep)
  {
    var serving := InServiceOrdinals(nodes, ords);
    InServiceCount(nodes, ords);
    CountsAddUp(nodes);
    if AboveDrained(nodes, ords, keep) {
      FillsRange(serving, 0, keep);
    }
    if ServingBelow(nodes, ords, keep) {
      SubsetOfSameSize(Range(0, keep), serving);
      forall i | 0 <= i < |nodes| && ords[i] >= keep ensures Drained(nodes[i]) {
        assert ords[i] !in serving;
      }
    }
  }

  lemma KeptInServiceImpliesDrained(nodes: seq<Node>, ords: seq<int>, keep: nat)
    requires |ords| == |nodes| && Covers(ords, keep) && ProgressCheck(nodes, keep) == Decommissioned
    requires KeptInService(nodes, ords, keep)
    ensures AboveDrained(nodes, ords, keep)
  {
    ServingBelowIff(nodes, ords, keep);
    DrainedIffServingBelow(nodes, ords, keep);
  }

  /** When the counts say Decommissioned, every node the ordinal filter picks is decommissioned and empty
      exactly when every ordinal below the kept amount has a backend in service. */
  lemma DecommissionedMeansDrained(nodes: seq<Node>, ords: seq<int>, keep: nat)
    requires Numbered(nodes, ords) && Ordinals(ords)
    requires ProgressCheck(nodes, keep) == Decommissioned
    ensures ScaledOut(nodes, keep).Some?
    ensures (forall n | n in ScaledOut(nodes, keep).value :: Drained(n)) <==> ServingBelow(nodes, ords, keep)
  {
    hide TrailingNumber, ProgressCheck, InServiceOrdinals;
    ScaledOutMembers(nodes, ords, keep);
    DrainedIffServingBelow(nodes, ords, keep);
  }

  /** A backend below the kept amount that somebody else decommissioned makes the counts say
      Decommissioned while the node about to be dropped is in service and holds tablets. */
  lemma OutsideDecommissionDropsData() returns (nodes: seq<Node>, ords: seq<int>)
    ensures Numbered(nodes, ords) && Covers(ords, 2) && ProgressCheck(nodes, 2) == Decommissioned
    ensures ScaledOut(nodes, 2).Some?
    ensures exists n :: n in ScaledOut(nodes, 2).value && InService(n) && n.tablets > 0
  {
    hide TrailingNumber, PodNames.PodName;
    var name := (i: nat) => PodNames.PodName("be", i);
    var a, b, c := Node(name(0), true, 0), Node(name(1), false, 7), Node(name(2), false, 9);
    nodes, ords := [a, b, c], [0, 1, 2];
    PodNumberOfPod("be", 0, "");
    PodNumberOfPod("be", 1, "");
    PodNumberOfPod("be", 2, "");
    assert ords[0] == 0 && ords[1] == 1;
    CountThree(a, b, c, InService);
    CountThree(a, b, c, Draining);
    CountThree(a, b, c, Drained);
    ScaledOutMembers(nodes, ords, 2);
    assert ords[2] >= 2 && nodes[2] == c;
  }

  /** So does a backend that is missing below the kept amount, with one above it decommissioned instead. */
  lemma MissingBackendDropsData() returns (nodes: seq<Node>, ords: seq<int>)
    ensures Numbered(nodes, ords) && Ordinals(ords) && KeptInService(nodes, ords, 3)
    ensures ProgressCheck(nodes, 3) == Decommissioned && ScaledOut(nodes, 3).Some?
    ensures exists n :: n in ScaledOut(nodes, 3).value && InService(n) && n.tablets > 0
  {
    hide TrailingNumber, PodNames.PodName;
    var name := (i: nat) => PodNames.PodName("be", i);
    var a, b, c, d := Node(name(0), false, 5), Node(name(1), false, 7), Node(name(3), false, 9), Node(name(4), true, 0);
    nodes, ords := [a, b, c, d], [0, 1, 3, 4];
    PodNumberOfPod("be", 0, "");
    PodNumberOfPod("be", 1, "");
    PodNumberOfPod("be", 3, "");
    PodNumberOfPod("be", 4, "");
    assert ords[0] == 0 && ords[1] == 1 && ords[2] == 3;
    CountFour(a, b, c, d, InService);
    CountFour(a, b, c, d, Draining);
    CountFour(a, b, c, d, Drained);
    ScaledOutMembers(nodes, ords, 3);
    assert ords[2] >= 3 && nodes[2] == c;
  }

  lemma CountFour(a: Node, b: Node, c: Node, d: Node, p: Node -> bool)
    ensures Count([a, b, c, d], p)
         == (if p(a) then 1 else 0) + (if p(b) then 1 else 0) + (if p(c) then 1 else 0) + (if p(d) then 1 else 0)
  {
    assert [a, b, c, d][..3] == [a, b, c];
    CountThree(a, b, c, p);
  }

  lemma CountThree(a: Node, b: Node, c: Node, p: Node -> bool)
    ensures Count([a, b, c], p) == (if p(a) then 1 else 0) + (if p(b) then 1 else 0) + (if p(c) then 1 else 0)
  {
    assert [a, b, c][..2] == [a, b] && [a, b][..1] == [a] && [a][..0] == [];
    assert Count([a], p) == if p(a) then 1 else 0;
    assert Count([a, b], p) == (if p(a) then 1 else 0) + (if p(b) then 1 else 0);
  }
}
