/** Keeping the operator-managed claims at the size their templates ask for: create what is missing,
    grow what is too small, never shrink. */
module PvcReconcile {
  import opened PvcNames

  datatype Template = Template(name: string, size: int, operatorManaged: bool)

  /** A stored claim; only claims with the selector's labels show up in the list. */
  datatype Pvc = Pvc(size: int, labelled: bool)

  type Store = map<string, Pvc>

  datatype Write = Create(name: string, size: int) | Patch(name: string, size: int)

  datatype State = State(store: Store, listed: map<string, int>, writes: seq<Write>, ok: bool)

  /** The list taken at the start: the labelled claims and their sizes. */
  function Listing(store: Store): map<string, int> {
    map n | n in store && store[n].labelled :: store[n].size
  }

  /** One claim of one template. A refused write ends the reconcile; a claim that exists without the
      labels cannot be created and is left alone. */
  function ReconcileClaim(s: State, name: string, size: int, refused: set<string>): State {
    if name !in s.listed then
      if name in s.store then s
      else if name in refused then s.(ok := false)
      else s.(store := s.store[name := Pvc(size, true)], writes := s.writes + [Create(name, size)])
    else if s.listed[name] < size then
      if name in refused || name !in s.store then s.(ok := false)
      else s.(store := s.store[name := s.store[name].(size := size)], listed := s.listed[name := size],
              writes := s.writes + [Patch(name, size)])
    else s
  }

  /** The claims of the managed templates, template by template and ordinal by ordinal. */
  function OrdinalClaims(t: Template, sts: string, replicas: int): seq<(string, int)> {
    if replicas <= 0 then [] else OrdinalClaims(t, sts, replicas - 1) + [(ClaimName(sts, replicas - 1, t.name), t.size)]
  }

  function Wanted(templates: seq<Template>, sts: string, replicas: int): seq<(string, int)> {
    if templates == [] then []
    else
      var t := templates[|templates| - 1];
      Wanted(templates[..|templates| - 1], sts, replicas) + if t.operatorManaged then OrdinalClaims(t, sts, replicas) else []
  }

  function ReconcileAll(s: State, wanted: seq<(string, int)>, refused: set<string>): State {
    if wanted == [] then s
    else
      var before := ReconcileAll(s, wanted[..|wanted| - 1], refused);
      if !before.ok then before
      else ReconcileClaim(before, wanted[|wanted| - 1].0, wanted[|wanted| - 1].1, refused)
  }

  function Start(store: Store): State { State(store, Listing(store), [], true) }

  class PvcApi {
    var store: Store

    constructor (store: Store)
      ensures this.store == store
    {
      this.store := store;
    }
  }

  lemma {:induction false} StopsAtFailure(s: State, wanted: seq<(string, int)>, k: nat, refused: set<string>)
    requires k <= |wanted| && !ReconcileAll(s, wanted[..k], refused).ok
    ensures ReconcileAll(s, wanted, refused) == ReconcileAll(s, wanted[..k], refused)
    decreases |wanted|
  {
    if k == |wanted| {
      assert wanted[..k] == wanted;
    } else {
      assert wanted[..|wanted| - 1][..k] == wanted[..k];
      StopsAtFailure(s, wanted[..|wanted| - 1], k, refused);
    }
  }

  lemma {:induction false} WantedPrefix(templates: seq<Template>, i: nat, sts: string, replicas: int)
    requires i <= |templates|
    ensures Wanted(templates[..i], sts, replicas) <= Wanted(templates, sts, replicas)
    decreases |templates|
  {
    if i == |templates| {
      assert templates[..i] == templates;
    } else {
      assert templates[..|templates| - 1][..i] == templates[..i];
      WantedPrefix(templates[..|templates| - 1], i, sts, replicas);
    }
  }

  lemma {:induction false} OrdinalPrefix(t: Template, sts: string, k: nat, replicas: int)
    requires k <= replicas
    ensures OrdinalClaims(t, sts, k) <= OrdinalClaims(t, sts, replicas)
  {
    if k < replicas { OrdinalPrefix(t, sts, k, replicas - 1); }
  }

  /** Without the claim list nothing is written. */
  method ReconcilePVC(api: PvcApi, templates: seq<Template>, sts: string, replicas: int, listFails: bool, refused: set<string>)
    returns (ok: bool)
    modifies api
    ensures listFails ==> api.store == old(api.store) && !ok
    ensures !listFails ==>
              var end := ReconcileAll(Start(old(api.store)), Wanted(templates, sts, replicas), refused);
              api.store == end.store && ok == end.ok
  {
    if listFails { return false; }
    hide ClaimName, ReconcileClaim, OrdinalClaims;
    ghost var start := Start(api.store);
    var oldPvcs := Listing(api.store);
    ok := true;
    for i := 0 to |templates|
      invariant var end := ReconcileAll(start, Wanted(templates[..i], sts, replicas), refused);
                api.store == end.store && oldPvcs == end.listed && end.ok && ok
    {
      assert templates[..i + 1][..i] == templates[..i];
      ghost var done := Wanted(templates[..i], sts, replicas);
      assert done + [] == done;
      if !templates[i].operatorManaged { continue; }
      oldPvcs, ok := ReconcileTemplate(api, oldPvcs, templates[i], sts, replicas, refused, start, done);
      if !ok {
        ghost var all, now := Wanted(templates, sts, replicas), Wanted(templates[..i + 1], sts, replicas);
        WantedPrefix(templates, i + 1, sts, replicas);
        assert now == all[..|now|];
        StopsAtFailure(start, all, |now|, refused);
        return;
      }
    }
    assert templates[..|templates|] == templates;
  }

  lemma FailureEndsTemplate(start: State, done: seq<(string, int)>, t: Template, sts: string, k: nat, replicas: int, refused: set<string>)
    requires k <= replicas && !ReconcileAll(start, done + OrdinalClaims(t, sts, k), refused).ok
    ensures ReconcileAll(start, done + OrdinalClaims(t, sts, replicas), refused)
         == ReconcileAll(start, done + OrdinalClaims(t, sts, k), refused)
  {
    hide ClaimName, ReconcileClaim;
    var now, all := done + OrdinalClaims(t, sts, k), done + OrdinalClaims(t, sts, replicas);
    OrdinalPrefix(t, sts, k, replicas);
    assert now == all[..|now|];
    StopsAtFailure(start, all, |now|, refused);
  }

  /** The inner loop: one managed template, ordinal by ordinal, after the claims in `done`. */
  method ReconcileTemplate(api: PvcApi, listed: map<string, int>, t: Template, sts: string, replicas: int,
                           refused: set<string>, ghost start: State, ghost done: seq<(string, int)>)
    returns (listed': map<string, int>, ok: bool)
    requires var now := ReconcileAll(start, done, refused); api.store == now.store && listed == now.listed && now.ok
    modifies api
    ensures var end := ReconcileAll(start, done + OrdinalClaims(t, sts, replicas), refused);
            api.store == end.store && ok == end.ok && (ok ==> listed' == end.listed)
  {
    hide ClaimName, ReconcileClaim;
    listed', ok := listed, true;
    assert done + [] == done;
    var ordinal := 0;
    while ordinal < replicas
      invariant 0 <= ordinal && (replicas >= 0 ==> ordinal <= replicas) && (replicas < 0 ==> ordinal == 0)
      invariant var end := ReconcileAll(start, done + OrdinalClaims(t, sts, ordinal), refused);
                api.store == end.store && listed' == end.listed && end.ok && ok
    {
      ghost var before, now := done + OrdinalClaims(t, sts, ordinal), done + OrdinalClaims(t, sts, ordinal + 1);
      assert now[..|now| - 1] == before;
      var name := ClaimName(sts, ordinal, t.name);
      listed', ok := ReconcileOne(api, listed', name, t.size, refused, ReconcileAll(start, before, refused).writes);
      if !ok {
        FailureEndsTemplate(start, done, t, sts, ordinal + 1, replicas, refused);
        return;
      }
      ordinal := ordinal + 1;
    }
  }

  method ReconcileOne(api: PvcApi, listed: map<string, int>, name: string, size: int, refused: set<string>, ghost writes: seq<Write>)
    returns (listed': map<string, int>, ok: bool)
    modifies api
    ensures var s := ReconcileClaim(State(old(api.store), listed, writes, true), name, size, refused);
            api.store == s.store && listed' == s.listed && ok == s.ok
  {
    listed', ok := listed, true;
    if name !in listed {
      if name !in api.store {
        if name in refused { return listed, false; }
        api.store := api.store[name := Pvc(size, true)];
      }
      return;
    }
    if listed[name] < size {
      if name in refused || name !in api.store { return listed, false; }
      listed' := listed[name := size];
      api.store := api.store[name := api.store[name].(size := size)];
    }
  }

  // ----- what the reconcile achieves

  /** The size a wanted claim has afterwards: the larger of its own and the template's, or the
      template's when it is new; a claim outside the list keeps its size. */
  function SizeAfter(before: Store, name: string, size: int): int {
    if name !in before then size
    else if before[name].labelled && before[name].size < size then size
    else before[name].size
  }

  ghost predicate Settled(before: Store, after: Store, w: (string, int)) {
    w.0 in after && after[w.0] == Pvc(SizeAfter(before, w.0, w.1), w.0 in before ==> before[w.0].labelled)
  }

  ghost predicate NamesDiffer(wanted: seq<(string, int)>) {
    forall i, j | 0 <= i < j < |wanted| :: wanted[i].0 != wanted[j].0
  }

  /** What the list knows is right. */
  ghost predicate Synced(s: State) {
    forall n | n in s.listed :: n in s.store && s.store[n] == Pvc(s.listed[n], true)
  }

  /** One claim's reconcile touches only that claim, and never shrinks it. */
  lemma ClaimStep(s: State, name: string, size: int, refused: set<string>)
    requires Synced(s)
    ensures var s' := ReconcileClaim(s, name, size, refused);
            && Synced(s')
            && (forall n | n != name :: (n in s'.store <==> n in s.store) && (n in s.store ==> s'.store[n] == s.store[n]))
            && (forall n | n != name :: (n in s'.listed <==> n in s.listed))
            && (name in s.store ==>
                  name in s'.store && s'.store[name].size >= s.store[name].size && s'.store[name].labelled == s.store[name].labelled)
            && (s.ok && s'.ok && (name in s.listed <==> name in s.store && s.store[name].labelled) ==>
                  Settled(s.store, s'.store, (name, size)))
  {
  }

  /** In every run, refused writes included, no claim disappears and no request shrinks. */
  lemma {:induction false} NothingShrinks(store: Store, wanted: seq<(string, int)>, refused: set<string>)
    ensures var s := ReconcileAll(Start(store), wanted, refused);
            && Synced(s)
            && forall n | n in store :: n in s.store && s.store[n].size >= store[n].size && s.store[n].labelled == store[n].labelled
  {
    hide ReconcileClaim;
    if wanted != [] {
      var k := |wanted| - 1;
      NothingShrinks(store, wanted[..k], refused);
      ClaimStep(ReconcileAll(Start(store), wanted[..k], refused), wanted[k].0, wanted[k].1, refused);
    }
  }

  /** A claim nobody wants is left alone. */
  lemma {:induction false} OthersUntouched(store: Store, wanted: seq<(string, int)>, refused: set<string>, n: string)
    requires forall i | 0 <= i < |wanted| :: wanted[i].0 != n
    ensures var s := ReconcileAll(Start(store), wanted, refused);
            && (n in s.store <==> n in store) && (n in store ==> s.store[n] == store[n])
            && (n in s.listed <==> n in store && store[n].labelled)
  {
    hide ReconcileClaim;
    if wanted != [] {
      var k := |wanted| - 1;
      OthersUntouched(store, wanted[..k], refused, n);
      NothingShrinks(store, wanted[..k], refused);
      ClaimStep(ReconcileAll(Start(store), wanted[..k], refused), wanted[k].0, wanted[k].1, refused);
    }
  }

  /** Without a refused write every wanted claim is settled. */
  lemma {:induction false} AllSettled(store: Store, wanted: seq<(string, int)>, refused: set<string>, i: nat)
    requires NamesDiffer(wanted) && i < |wanted| && ReconcileAll(Start(store), wanted, refused).ok
    ensures Settled(store, ReconcileAll(Start(store), wanted, refused).store, wanted[i])
  {
    hide ReconcileClaim;
    var k := |wanted| - 1;
    var before := ReconcileAll(Start(store), wanted[..k], refused);
    NothingShrinks(store, wanted[..k], refused);
    ClaimStep(before, wanted[k].0, wanted[k].1, refused);
    assert wanted[i].0 != wanted[k].0 || i == k;
    if i < k {
      AllSettled(store, wanted[..k], refused, i);
    } else {
      OthersUntouched(store, wanted[..k], refused, wanted[k].0);
    }
  }

  /** On claims that are all there and, if listed, large enough, the reconcile writes nothing. */
  lemma {:induction false} NothingToDo(store: Store, wanted: seq<(string, int)>, refused: set<string>)
    requires forall i | 0 <= i < |wanted| ::
               wanted[i].0 in store && (store[wanted[i].0].labelled ==> store[wanted[i].0].size >= wanted[i].1)
    ensures ReconcileAll(Start(store), wanted, refused) == Start(store)
  {
    if wanted != [] {
      var k := |wanted| - 1;
      assert forall i | 0 <= i < k :: wanted[..k][i] == wanted[i];
      NothingToDo(store, wanted[..k], refused);
    }
  }

  /** A write is needed for the claim, and the API refuses it. */
  ghost predicate Blocked(store: Store, w: (string, int), refused: set<string>) {
    w.0 in refused && (w.0 !in store || (store[w.0].labelled && store[w.0].size < w.1))
  }

  /** The reconcile succeeds exactly when no write that some claim needs is refused. */
  lemma {:induction false} SucceedsIff(store: Store, wanted: seq<(string, int)>, refused: set<string>)
    requires NamesDiffer(wanted)
    ensures ReconcileAll(Start(store), wanted, refused).ok <==> forall i | 0 <= i < |wanted| :: !Blocked(store, wanted[i], refused)
  {
    if wanted != [] {
      var k := |wanted| - 1;
      var before := ReconcileAll(Start(store), wanted[..k], refused);
      SucceedsIff(store, wanted[..k], refused);
      NothingShrinks(store, wanted[..k], refused);
      OthersUntouched(store, wanted[..k], refused, wanted[k].0);
      assert before.ok ==> (ReconcileClaim(before, wanted[k].0, wanted[k].1, refused).ok <==> !Blocked(store, wanted[k], refused));
      assert forall i | 0 <= i < k :: wanted[..k][i] == wanted[i];
    }
  }

  /** At the first refused write it stops: the claims before are settled, that one and those behind it
      are as they were. */
  lemma StopsAtBlocked(store: Store, wanted: seq<(string, int)>, refused: set<string>, k: nat, i: nat)
    requires NamesDiffer(wanted) && k < |wanted| && Blocked(store, wanted[k], refused)
    requires forall j | 0 <= j < k :: !Blocked(store, wanted[j], refused)
    requires i < |wanted|
    ensures var after, n := ReconcileAll(Start(store), wanted, refused).store, wanted[i].0;
            if i < k then Settled(store, after, wanted[i])
            else (n in after <==> n in store) && (n in store ==> after[n] == store[n])
  {
    hide ReconcileClaim, Settled;
    var before := ReconcileAll(Start(store), wanted[..k], refused);
    assert forall j | 0 <= j < k :: wanted[..k][j] == wanted[j];
    SucceedsIff(store, wanted[..k], refused);
    BlockedStops(store, wanted, refused, k);
    if i < k { AllSettled(store, wanted[..k], refused, i); } else { OthersUntouched(store, wanted[..k], refused, wanted[i].0); }
  }

  lemma BlockedStops(store: Store, wanted: seq<(string, int)>, refused: set<string>, k: nat)
    requires NamesDiffer(wanted) && k < |wanted| && Blocked(store, wanted[k], refused)
    requires ReconcileAll(Start(store), wanted[..k], refused).ok
    ensures ReconcileAll(Start(store), wanted, refused) == ReconcileAll(Start(store), wanted[..k], refused).(ok := false)
  {
    assert wanted[..k + 1][..k] == wanted[..k];
    NothingShrinks(store, wanted[..k], refused);
    OthersUntouched(store, wanted[..k], refused, wanted[k].0);
    StopsAtFailure(Start(store), wanted, k + 1, refused);
  }

  /** The writes are exactly the differences: a creation for each claim that is new and a patch for each
      that grew, at the size the claim then has. */
  lemma {:induction false} WritesAreDifferences(store: Store, wanted: seq<(string, int)>, refused: set<string>, n: string, size: int)
    requires NamesDiffer(wanted)
    ensures var s := ReconcileAll(Start(store), wanted, refused);
            && (Create(n, size) in s.writes <==> n !in store && n in s.store && s.store[n].size == size)
            && (Patch(n, size) in s.writes <==> n in store && n in s.store && s.store[n].size == size > store[n].size)
  {
    if wanted != [] {
      var k := |wanted| - 1;
      WritesAreDifferences(store, wanted[..k], refused, n, size);
      NothingShrinks(store, wanted[..k], refused);
      OthersUntouched(store, wanted[..k], refused, wanted[k].0);
    }
  }

  // ----- which claims are wanted

  lemma {:induction false} OrdinalClaimsAt(t: Template, sts: string, replicas: int)
    ensures |OrdinalClaims(t, sts, replicas)| == if replicas <= 0 then 0 else replicas
    ensures forall o | 0 <= o < replicas :: OrdinalClaims(t, sts, replicas)[o] == (ClaimName(sts, o, t.name), t.size)
  {
    hide ClaimName;
    if replicas > 0 { OrdinalClaimsAt(t, sts, replicas - 1); }
  }

  /** w is the claim of a managed template at an ordinal below the replica count. */
  ghost predicate IsWanted(templates: seq<Template>, sts: string, replicas: int, w: (string, int)) {
    exists i, o :: 0 <= i < |templates| && 0 <= o < replicas && templates[i].operatorManaged
                   && w == (ClaimName(sts, o, templates[i].name), templates[i].size)
  }

  lemma {:induction false} WantedMembers(templates: seq<Template>, sts: string, replicas: int)
    ensures forall w :: w in Wanted(templates, sts, replicas) <==> IsWanted(templates, sts, replicas, w)
  {
    hide ClaimName, OrdinalClaims;
    if templates != [] {
      var k := |templates| - 1;
      var t := templates[k];
      WantedMembers(templates[..k], sts, replicas);
      OrdinalClaimsAt(t, sts, replicas);
      forall w ensures w in Wanted(templates, sts, replicas) <==> IsWanted(templates, sts, replicas, w) {
        if IsWanted(templates[..k], sts, replicas, w) {
          var i, o :| 0 <= i < k && 0 <= o < replicas && templates[..k][i].operatorManaged
                      && w == (ClaimName(sts, o, templates[..k][i].name), templates[..k][i].size);
          assert w == (ClaimName(sts, o, templates[i].name), templates[i].size);
        }
        if IsWanted(templates, sts, replicas, w) {
          var i, o :| 0 <= i <= k && 0 <= o < replicas && templates[i].operatorManaged
                      && w == (ClaimName(sts, o, templates[i].name), templates[i].size);
          if i < k {
            assert templates[..k][i] == templates[i];
          } else {
            assert OrdinalClaims(t, sts, replicas)[o] == w;
          }
        }
      }
    }
  }

  /** The claims are taken template by template and ordinal by ordinal. */
  lemma WantedAt(templates: seq<Template>, sts: string, replicas: int, i: nat, o: nat)
    requires i < |templates| && templates[i].operatorManaged && o < replicas
    ensures var at := |Wanted(templates[..i], sts, replicas)| + o;
            && at < |Wanted(templates[..i + 1], sts, replicas)| <= |Wanted(templates, sts, replicas)|
            && Wanted(templates, sts, replicas)[at] == (ClaimName(sts, o, templates[i].name), templates[i].size)
  {
    hide ClaimName, OrdinalClaims;
    WantedPrefix(templates, i + 1, sts, replicas);
    OrdinalClaimsAt(templates[i], sts, replicas);
    var more := templates[..i + 1];
    assert more[..i] == templates[..i];
    assert Wanted(more, sts, replicas) == Wanted(templates[..i], sts, replicas) + OrdinalClaims(templates[i], sts, replicas);
    hide Wanted;
  }

  ghost predicate DistinctManaged(templates: seq<Template>) {
    forall i, j | 0 <= i < j < |templates| && templates[i].operatorManaged && templates[j].operatorManaged ::
      templates[i].name != templates[j].name
  }

  lemma {:induction false} WantedNamesDiffer(templates: seq<Template>, sts: string, replicas: int)
    requires DistinctManaged(templates)
    ensures NamesDiffer(Wanted(templates, sts, replicas))
  {
    hide ClaimName, OrdinalClaims;
    if templates != [] {
      var k := |templates| - 1;
      var t := templates[k];
      WantedNamesDiffer(templates[..k], sts, replicas);
      WantedMembers(templates[..k], sts, replicas);
      OrdinalClaimsAt(t, sts, replicas);
      var before, all := Wanted(templates[..k], sts, replicas), Wanted(templates, sts, replicas);
      forall a, b | 0 <= a < b < |all| ensures all[a].0 != all[b].0 {
        if b >= |before| {
          var o := b - |before|;
          assert all[b] == (ClaimName(sts, o, t.name), t.size);
          if a < |before| {
            assert all[a] in before;
            var i, p :| 0 <= i < k && 0 <= p < replicas && templates[..k][i].operatorManaged
                        && all[a] == (ClaimName(sts, p, templates[..k][i].name), templates[..k][i].size);
            if all[a].0 == all[b].0 { ClaimNamesDiffer(sts, p, o, templates[i].name, t.name); }
          } else {
            var p := a - |before|;
            assert all[a] == (ClaimName(sts, p, t.name), t.size);
            if all[a].0 == all[b].0 { ClaimNamesDiffer(sts, p, o, t.name, t.name); }
          }
        }
      }
    }
  }

  /** When the managed templates have distinct names and no write is refused on the way, every managed
      template's claim at every ordinal below the replica count ends with the larger of the old and
      the template's size, every other claim is untouched, and a second reconcile writes nothing. */
  lemma PointwiseMaximum(store: Store, templates: seq<Template>, sts: string, replicas: int, refused: set<string>, again: set<string>)
    requires DistinctManaged(templates)
    requires ReconcileAll(Start(store), Wanted(templates, sts, replicas), refused).ok
    ensures var after := ReconcileAll(Start(store), Wanted(templates, sts, replicas), refused).store;
            && (forall i, o | 0 <= i < |templates| && 0 <= o < replicas && templates[i].operatorManaged ::
                  Settled(store, after, (ClaimName(sts, o, templates[i].name), templates[i].size)))
            && (forall n | (forall w | IsWanted(templates, sts, replicas, w) :: w.0 != n) ::
                  (n in after <==> n in store) && (n in store ==> after[n] == store[n]))
            && ReconcileAll(Start(after), Wanted(templates, sts, replicas), again) == Start(after)
  {
    hide ClaimName, Wanted, ReconcileAll;
    var wanted := Wanted(templates, sts, replicas);
    var after := ReconcileAll(Start(store), wanted, refused).store;
    WantedNamesDiffer(templates, sts, replicas);
    WantedMembers(templates, sts, replicas);
    forall i | 0 <= i < |wanted| ensures Settled(store, after, wanted[i]) { AllSettled(store, wanted, refused, i); }
    forall i, o | 0 <= i < |templates| && 0 <= o < replicas && templates[i].operatorManaged
      ensures Settled(store, after, (ClaimName(sts, o, templates[i].name), templates[i].size))
    {
      var w := (ClaimName(sts, o, templates[i].name), templates[i].size);
      assert IsWanted(templates, sts, replicas, w);
      assert w in wanted;
    }
    forall n | (forall w | IsWanted(templates, sts, replicas, w) :: w.0 != n)
      ensures (n in after <==> n in store) && (n in store ==> after[n] == store[n])
    {
      assert forall i | 0 <= i < |wanted| :: wanted[i] in wanted;
      OthersUntouched(store, wanted, refused, n);
    }
    forall i | 0 <= i < |wanted|
      ensures wanted[i].0 in after && (after[wanted[i].0].labelled ==> after[wanted[i].0].size >= wanted[i].1)
    {
      assert Settled(store, after, wanted[i]);
    }
    NothingToDo(after, wanted, again);
  }
}
