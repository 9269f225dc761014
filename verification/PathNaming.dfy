/** Names for storage paths: each path gets the shortest '-'-joined component suffix that is unused. */
module PathNaming {
  import opened Wrappers
  import opened GoStrings

  // ----- the naming

  function Prepend(component: string, name: string): string {
    if name == "" then component else component + "-" + name
  }

  /** Walk the pieces from the last one, skipping empty ones, until the name is unused or none is left. */
  function Walk(pieces: seq<string>, name: string, used: set<string>): string {
    if pieces == [] then name
    else
      var k := |pieces| - 1;
      if pieces[k] == "" then Walk(pieces[..k], name, used)
      else
        var longer := Prepend(pieces[k], name);
        if longer !in used then longer else Walk(pieces[..k], longer, used)
  }

  /** The two inverse maps the naming fills. */
  datatype Naming = Naming(namePath: map<string, string>, pathName: map<string, string>)

  function NextName(path: string, n: Naming): string {
    Walk(Split(path, "/"), "", n.namePath.Keys)
  }

  function AssignNames(paths: seq<string>): Naming {
    if paths == [] then Naming(map[], map[])
    else
      var before, path := AssignNames(paths[..|paths| - 1]), paths[|paths| - 1];
      var name := NextName(path, before);
      Naming(before.namePath[name := path], before.pathName[path := name])
  }

  /** What one turn of the loop does. */
  lemma WalkTurn(left: seq<string>, piece: string, name: string, used: set<string>)
    ensures Walk(left + [piece], name, used)
         == if piece == "" then Walk(left, name, used)
            else if Prepend(piece, name) !in used then Prepend(piece, name)
            else Walk(left, Prepend(piece, name), used)
    ensures Walk([], name, used) == name
  {
    assert (left + [piece])[..|left|] == left;
  }

  method NameNext(path: string, namePath: map<string, string>) returns (name: string)
    ensures name == Walk(Split(path, "/"), "", namePath.Keys)
  {
    hide Split, Walk;
    var sp := Split(path, "/");
    name := "";
    var i := 1;
    assert sp[..|sp|] == sp;
    while i <= |sp|
      invariant 1 <= i <= |sp| + 1
      invariant Walk(sp, "", namePath.Keys) == Walk(sp[..|sp| + 1 - i], name, namePath.Keys)
    {
      var piece := sp[|sp| - i];
      assert sp[..|sp| + 1 - i] == sp[..|sp| - i] + [piece];
      WalkTurn(sp[..|sp| - i], piece, name, namePath.Keys);
      if piece != "" {
        name := Prepend(piece, name);
        if name !in namePath { return; }
      }
      i := i + 1;
    }
    assert sp[..0] == [];
    WalkTurn([], "", name, namePath.Keys);
  }

  method NamePaths(paths: seq<string>) returns (n: Naming)
    ensures n == AssignNames(paths)
  {
    hide Walk, Split;
    var namePath: map<string, string>, pathName: map<string, string> := map[], map[];
    for k := 0 to |paths|
      invariant Naming(namePath, pathName) == AssignNames(paths[..k])
    {
      assert paths[..k + 1][..k] == paths[..k];
      var name := NameNext(paths[k], namePath);
      namePath := namePath[name := paths[k]];
      pathName := pathName[paths[k] := name];
    }
    assert paths[..|paths|] == paths;
    n := Naming(namePath, pathName);
  }

  method GetNameOfEachPath(paths: seq<string>) returns (res: seq<string>)
    ensures |res| == |paths|
    ensures forall k | 0 <= k < |paths| ::
              paths[k] in AssignNames(paths).pathName && res[k] == UnderscoresToDashes(AssignNames(paths).pathName[paths[k]])
  {
    var n := NamePaths(paths);
    EveryPathNamed(paths);
    res := [];
    for k := 0 to |paths|
      invariant |res| == k
      invariant forall j | 0 <= j < k :: res[j] == UnderscoresToDashes(n.pathName[paths[j]])
    {
      res := res + [UnderscoresToDashes(n.pathName[paths[k]])];
    }
  }

  lemma {:induction false} EveryPathNamed(paths: seq<string>)
    ensures AssignNames(paths).pathName.Keys == set p | p in paths
  {
    if paths != [] {
      EveryPathNamed(paths[..|paths| - 1]);
      assert paths == paths[..|paths| - 1] + [paths[|paths| - 1]];
    }
  }

  // ----- when the names are distinct

  /** The name given at position i. */
  function NameAt(paths: seq<string>, i: nat): string
    requires i < |paths|
  {
    NextName(paths[i], AssignNames(paths[..i]))
  }

  /** The walk of the i-th path stopped at an unused name instead of running out of components. */
  ghost predicate FoundUnused(paths: seq<string>, i: nat)
    requires i < |paths|
  {
    NameAt(paths, i) !in AssignNames(paths[..i]).namePath
  }

  ghost predicate Distinct(s: seq<string>) {
    forall i, j | 0 <= i < j < |s| :: s[i] != s[j]
  }

  lemma {:induction false} UsedNames(paths: seq<string>, n: nat, name: string)
    requires n <= |paths|
    ensures name in AssignNames(paths[..n]).namePath <==> exists i :: 0 <= i < n && NameAt(paths, i) == name
  {
    hide NextName;
    if n > 0 {
      UsedNames(paths, n - 1, name);
      assert paths[..n][..n - 1] == paths[..n - 1];
      assert AssignNames(paths[..n]).namePath.Keys == AssignNames(paths[..n - 1]).namePath.Keys + {NameAt(paths, n - 1)};
    }
  }

  lemma {:induction false} NameByPath(paths: seq<string>, n: nat, i: nat)
    requires Distinct(paths) && i < n <= |paths|
    ensures paths[i] in AssignNames(paths[..n]).pathName
    ensures AssignNames(paths[..n]).pathName[paths[i]] == NameAt(paths, i)
  {
    hide NextName;
    assert paths[..n][..n - 1] == paths[..n - 1];
    if i < n - 1 {
      NameByPath(paths, n - 1, i);
    }
  }

  /** For paths without duplicates the assigned names are pairwise distinct exactly when every path's
      walk found an unused name. */
  lemma DistinctIffAllFound(paths: seq<string>)
    requires Distinct(paths)
    ensures forall p | p in paths :: p in AssignNames(paths).pathName
    ensures (forall i, j | 0 <= i < j < |paths| ::
               AssignNames(paths).pathName[paths[i]] != AssignNames(paths).pathName[paths[j]])
       <==> (forall i | 0 <= i < |paths| :: FoundUnused(paths, i))
  {
    hide NameAt, AssignNames;
    EveryPathNamed(paths);
    assert paths[..|paths|] == paths;
    forall i: nat | i < |paths| ensures AssignNames(paths).pathName[paths[i]] == NameAt(paths, i) {
      NameByPath(paths, |paths|, i);
    }
    forall i | 0 <= i < |paths|
      ensures FoundUnused(paths, i) <==> forall j | 0 <= j < i :: NameAt(paths, j) != NameAt(paths, i)
    {
      UsedNames(paths, i, NameAt(paths, i));
    }
  }

  // ----- a condition on the paths alone

  function Components(pieces: seq<string>): seq<string> {
    if pieces == [] then []
    else
      var k := |pieces| - 1;
      Components(pieces[..k]) + if pieces[k] == "" then [] else [pieces[k]]
  }

  function PathComponents(path: string): seq<string> { Components(Split(path, "/")) }

  function Join(components: seq<string>): string {
    if components == [] then "" else Prepend(components[0], Join(components[1..]))
  }

  lemma JoinCons(piece: string, done: seq<string>)
    ensures Join([piece] + done) == Prepend(piece, Join(done))
  {
    assert ([piece] + done)[1..] == done;
  }

  ghost predicate SuffixOf(a: seq<string>, b: seq<string>) {
    |a| <= |b| && b[|b| - |a|..] == a
  }

  /** Components hold neither dashes nor underscores, and no path's components are a suffix of another
      path's. Paths may repeat. */
  ghost predicate Clean(paths: seq<string>) {
    && (forall p, c | p in paths && c in PathComponents(p) :: '-' !in c && '_' !in c)
    && (forall p, q | p in paths && q in paths && p != q :: !SuffixOf(PathComponents(p), PathComponents(q)))
  }

  ghost predicate Plain(components: seq<string>) {
    forall c | c in components :: c != "" && '-' !in c && '_' !in c
  }

  lemma {:induction false} ComponentsNonEmpty(pieces: seq<string>)
    ensures forall c | c in Components(pieces) :: c != ""
  {
    if pieces != [] { ComponentsNonEmpty(pieces[..|pieces| - 1]); }
  }

  /** name is the join of some suffix of the components, and of a non-empty one if there is any. */
  ghost predicate JoinsSuffix(name: string, components: seq<string>) {
    exists k: nat :: k <= |components| && (k == |components| ==> components == []) && name == Join(components[k..])
  }

  /** The walk returns a suffix join that is unused, or the join of all components. */
  lemma {:induction false} WalkJoinsSuffix(pieces: seq<string>, done: seq<string>, used: set<string>) returns (k: nat)
    ensures k <= |Components(pieces)| && (k == |Components(pieces)| ==> Components(pieces) == [])
    ensures Walk(pieces, Join(done), used) == Join((Components(pieces) + done)[k..])
    ensures k == 0 || Join((Components(pieces) + done)[k..]) !in used
    decreases |pieces|
  {
    hide Join;
    if pieces == [] {
      k := 0;
      assert Components(pieces) + done == done && done[0..] == done;
    } else {
      var m := |pieces| - 1;
      var earlier := Components(pieces[..m]);
      if pieces[m] == "" {
        assert Components(pieces) == earlier;
        k := WalkJoinsSuffix(pieces[..m], done, used);
      } else {
        var longer := [pieces[m]] + done;
        JoinCons(pieces[m], done);
        assert Components(pieces) == earlier + [pieces[m]];
        assert Components(pieces) + done == earlier + longer && (earlier + longer)[|earlier|..] == longer;
        if Join(longer) in used {
          k := WalkJoinsSuffix(pieces[..m], longer, used);
        } else {
          k := |earlier|;
        }
      }
    }
  }

  lemma SuffixIsPlain(components: seq<string>, k: nat)
    requires Plain(components) && k <= |components|
    ensures Plain(components[k..])
  {
    assert forall c | c in components[k..] :: c in components;
  }

  /** Plain components can be read back from their join. */
  lemma {:induction false} JoinInjective(a: seq<string>, b: seq<string>)
    requires Plain(a) && Plain(b) && Join(a) == Join(b)
    ensures a == b
  {
    if a == [] || b == [] {
      JoinEmpty(a);
      JoinEmpty(b);
    } else {
      JoinHead(a);
      JoinHead(b);
      var s := Join(a);
      assert |a[0]| <= |s| && |b[0]| <= |s|;
      assert |a[0]| == |b[0]| by {
        assert forall i | 0 <= i < |a[0]| :: s[i] != '-' by { assert forall i | 0 <= i < |a[0]| :: s[i] == a[0][i]; }
        assert forall i | 0 <= i < |b[0]| :: s[i] != '-' by { assert forall i | 0 <= i < |b[0]| :: s[i] == b[0][i]; }
      }
      assert a[0] == s[..|a[0]|] == b[0];
      SuffixIsPlain(a, 1);
      SuffixIsPlain(b, 1);
      JoinInjective(a[1..], b[1..]);
      assert a == [a[0]] + a[1..] && b == [b[0]] + b[1..];
    }
  }

  lemma JoinEmpty(a: seq<string>)
    requires Plain(a)
    ensures Join(a) == "" <==> a == []
  {
    if a != [] { assert a[0] in a; }
  }

  /** The join starts with the first component and goes on with a dash exactly when there are more. */
  lemma JoinHead(a: seq<string>)
    requires Plain(a) && a != []
    ensures |a[0]| <= |Join(a)| && Join(a)[..|a[0]|] == a[0]
    ensures '-' !in a[0]
    ensures if |a| == 1 then Join(a) == a[0] && Join(a[1..]) == ""
            else |Join(a)| > |a[0]| && Join(a)[|a[0]|] == '-' && Join(a[1..]) == Join(a)[|a[0]| + 1..]
  {
    assert a[0] in a;
    SuffixIsPlain(a, 1);
    JoinEmpty(a[1..]);
  }

  /** Every used name belongs to a path it is a suffix join of, and every named path owns its name. */
  ghost predicate NamingInvariant(paths: seq<string>, n: Naming) {
    && n.pathName.Keys == (set p | p in paths)
    && (forall name | name in n.namePath :: n.namePath[name] in paths && JoinsSuffix(name, PathComponents(n.namePath[name])))
    && (forall p | p in n.pathName :: n.pathName[p] in n.namePath && n.namePath[n.pathName[p]] == p)
  }

  lemma CleanIsPlain(paths: seq<string>, p: string)
    requires Clean(paths) && p in paths
    ensures Plain(PathComponents(p))
  {
    hide Split;
    ComponentsNonEmpty(Split(p, "/"));
  }

  /** A path that runs out of components only ever meets its own name. */
  lemma FullNameIsOwn(paths: seq<string>, before: Naming, path: string)
    requires Clean(paths) && path in paths
    requires forall name | name in before.namePath ::
               before.namePath[name] in paths && JoinsSuffix(name, PathComponents(before.namePath[name]))
    requires Join(PathComponents(path)) in before.namePath
    ensures before.namePath[Join(PathComponents(path))] == path
  {
    hide PathComponents;
    var own := PathComponents(path);
    var owner := before.namePath[Join(own)];
    var theirs := PathComponents(owner);
    var k: nat :| k <= |theirs| && Join(own) == Join(theirs[k..]);
    CleanIsPlain(paths, path);
    CleanIsPlain(paths, owner);
    SuffixIsPlain(theirs, k);
    JoinInjective(own, theirs[k..]);
    assert SuffixOf(own, theirs);
  }

  lemma AssignmentKeepsInvariant(seen: seq<string>, n: Naming, path: string, name: string)
    requires NamingInvariant(seen, n)
    requires JoinsSuffix(name, PathComponents(path))
    requires name in n.namePath ==> n.namePath[name] == path
    ensures NamingInvariant(seen + [path], Naming(n.namePath[name := path], n.pathName[path := name]))
  {
    hide JoinsSuffix, PathComponents;
  }

  lemma {:induction false} NamingKeepsInvariant(paths: seq<string>, k: nat)
    requires Clean(paths) && k <= |paths|
    ensures NamingInvariant(paths[..k], AssignNames(paths[..k]))
  {
    hide NextName, JoinsSuffix, PathComponents, Clean;
    if k > 0 {
      NamingKeepsInvariant(paths, k - 1);
      var before, path := AssignNames(paths[..k - 1]), paths[k - 1];
      assert paths[..k][..k - 1] == paths[..k - 1] && paths[..k] == paths[..k - 1] + [path];
      NextNameFacts(path, before);
      if NextName(path, before) in before.namePath {
        FullNameIsOwn(paths, before, path);
      }
      AssignmentKeepsInvariant(paths[..k - 1], before, path, NextName(path, before));
    }
  }

  lemma NextNameFacts(path: string, before: Naming)
    ensures JoinsSuffix(NextName(path, before), PathComponents(path))
    ensures NextName(path, before) == Join(PathComponents(path)) || NextName(path, before) !in before.namePath
  {
    hide Split, Walk;
    var c := PathComponents(path);
    var k := WalkJoinsSuffix(Split(path, "/"), [], before.namePath.Keys);
    assert c + [] == c && c[0..] == c;
    assert NextName(path, before) == Join(c[k..]);
  }

  /** For clean paths, after every iteration the two maps are inverse on the paths seen so far, and
      each name is the join of a component suffix of its path. */
  lemma NamesAreInverse(paths: seq<string>, k: nat)
    requires Clean(paths) && k <= |paths|
    ensures var n := AssignNames(paths[..k]);
            forall p | p in paths[..k] ::
              && p in n.pathName && n.pathName[p] in n.namePath && n.namePath[n.pathName[p]] == p
              && JoinsSuffix(n.pathName[p], PathComponents(p))
  {
    hide AssignNames, JoinsSuffix, PathComponents, Clean;
    NamingKeepsInvariant(paths, k);
  }

  ghost predicate NoUnderscores(components: seq<string>) {
    forall c | c in components :: '_' !in c
  }

  lemma {:induction false} JoinHasNoUnderscore(components: seq<string>)
    requires NoUnderscores(components)
    ensures '_' !in Join(components)
  {
    if components != [] {
      assert components[0] in components;
      assert NoUnderscores(components[1..]) by { assert forall c | c in components[1..] :: c in components; }
      JoinHasNoUnderscore(components[1..]);
    }
  }

  lemma ReplacementKeeps(s: string)
    requires '_' !in s
    ensures UnderscoresToDashes(s) == s
  {
    assert forall i | 0 <= i < |s| :: s[i] in s;
  }

  /** A suffix join of components without underscores is its own final name. */
  lemma SuffixJoinKept(name: string, components: seq<string>)
    requires JoinsSuffix(name, components) && NoUnderscores(components)
    ensures UnderscoresToDashes(name) == name
  {
    hide Join;
    var k: nat :| k <= |components| && name == Join(components[k..]);
    assert NoUnderscores(components[k..]) by { assert forall c | c in components[k..] :: c in components; }
    JoinHasNoUnderscore(components[k..]);
    ReplacementKeeps(name);
  }

  /** For clean paths, distinct paths get distinct names; repeated paths may share one. */
  lemma CleanPathsGetDistinctNames(paths: seq<string>, p: string, q: string)
    requires Clean(paths) && p in paths && q in paths && p != q
    ensures var n := AssignNames(paths).pathName;
            p in n && q in n && UnderscoresToDashes(n[p]) != UnderscoresToDashes(n[q])
  {
    hide AssignNames, PathComponents, Join;
    assert paths[..|paths|] == paths;
    NamesAreInverse(paths, |paths|);
    var n := AssignNames(paths).pathName;
    forall x | x == p || x == q ensures UnderscoresToDashes(n[x]) == n[x] {
      CleanIsPlain(paths, x);
      SuffixJoinKept(n[x], PathComponents(x));
    }
  }

  // ----- exactly when a path gets a name of its own

  /** Every name the walk can try is taken: the joins of all non-empty suffixes of the components, or the
      empty name when there are none. */
  ghost predicate Exhausted(components: seq<string>, used: set<string>) {
    forall k: nat | k <= |components| && (k == |components| ==> components == []) :: Join(components[k..]) in used
  }

  lemma {:induction false} WalkFailsIff(pieces: seq<string>, done: seq<string>, used: set<string>)
    ensures Walk(pieces, Join(done), used) in used
       <==> if Components(pieces) == [] then Join(done) in used
            else forall k: nat | k < |Components(pieces)| :: Join((Components(pieces) + done)[k..]) in used
    decreases |pieces|
  {
    hide Join;
    if pieces != [] {
      var k := |pieces| - 1;
      if pieces[k] == "" {
        WalkFailsIff(pieces[..k], done, used);
        assert Components(pieces) == Components(pieces[..k]);
      } else {
        var before, longer := Components(pieces[..k]), [pieces[k]] + done;
        JoinCons(pieces[k], done);
        assert Components(pieces) == before + [pieces[k]];
        assert Components(pieces) + done == before + longer;
        assert (before + longer)[|before|..] == longer;
        WalkFailsIff(pieces[..k], longer, used);
      }
    }
  }

  /** The walk of a path finds an unused name exactly when its components are not exhausted. */
  lemma FoundUnusedIff(paths: seq<string>, i: nat)
    requires i < |paths|
    ensures FoundUnused(paths, i) <==> !Exhausted(PathComponents(paths[i]), AssignNames(paths[..i]).namePath.Keys)
  {
    hide Split, AssignNames;
    var pieces, used := Split(paths[i], "/"), AssignNames(paths[..i]).namePath.Keys;
    var c := Components(pieces);
    WalkFailsIff(pieces, [], used);
    assert c + [] == c;
    if c == [] {
      assert c[0..] == [];
      assert forall k: nat | k <= |c| :: c[k..] == [];
    }
  }

  /** For paths without duplicates the assigned names are pairwise distinct if and only if no path's
      components are exhausted by the names of the paths before it. */
  lemma DistinctIffNoneExhausted(paths: seq<string>)
    requires Distinct(paths)
    ensures forall p | p in paths :: p in AssignNames(paths).pathName
    ensures (forall i, j | 0 <= i < j < |paths| ::
               AssignNames(paths).pathName[paths[i]] != AssignNames(paths).pathName[paths[j]])
       <==> (forall i | 0 <= i < |paths| :: !Exhausted(PathComponents(paths[i]), AssignNames(paths[..i]).namePath.Keys))
  {
    hide FoundUnused, Exhausted, AssignNames, PathComponents;
    DistinctIffAllFound(paths);
    forall i | 0 <= i < |paths|
      ensures FoundUnused(paths, i) <==> !Exhausted(PathComponents(paths[i]), AssignNames(paths[..i]).namePath.Keys)
    {
      FoundUnusedIff(paths, i);
    }
  }

  // ----- exactly when the final names differ

  /** The walk stops at the suffix from k on: the first one, from the shortest, whose join is unused. */
  ghost predicate StopsAt(components: seq<string>, used: set<string>, k: nat) {
    && k < |components| && Join(components[k..]) !in used
    && forall j: nat | k < j < |components| :: Join(components[j..]) in used
  }

  /** Some used name is the same once underscores are replaced. */
  ghost predicate Taken(name: string, used: set<string>) {
    exists n :: n in used && UnderscoresToDashes(n) == UnderscoresToDashes(name)
  }

  /** The final name of a path with these components is already a final name: either every suffix join is
      used, or the one the walk stops at becomes a used name by the replacement. */
  ghost predicate Collides(components: seq<string>, used: set<string>) {
    Exhausted(components, used) || exists k: nat :: StopsAt(components, used, k) && Taken(Join(components[k..]), used)
  }

  lemma {:induction false} WalkStops(pieces: seq<string>, done: seq<string>, used: set<string>, k: nat)
    requires k < |Components(pieces)| && Join((Components(pieces) + done)[k..]) !in used
    requires forall j: nat | k < j < |Components(pieces)| :: Join((Components(pieces) + done)[j..]) in used
    ensures Walk(pieces, Join(done), used) == Join((Components(pieces) + done)[k..])
    decreases |pieces|
  {
    hide Join;
    var m := |pieces| - 1;
    var before := Components(pieces[..m]);
    if pieces[m] == "" {
      assert Components(pieces) == before;
      WalkStops(pieces[..m], done, used, k);
    } else {
      var longer := [pieces[m]] + done;
      JoinCons(pieces[m], done);
      assert Components(pieces) == before + [pieces[m]];
      assert Components(pieces) + done == before + longer;
      assert (before + longer)[|before|..] == longer;
      if k < |before| { WalkStops(pieces[..m], longer, used, k); }
    }
  }

  lemma {:induction false} LastUnused(components: seq<string>, used: set<string>, n: nat) returns (k: nat)
    requires n <= |components| && forall j: nat | n <= j < |components| :: Join(components[j..]) in used
    requires exists j: nat :: j < |components| && Join(components[j..]) !in used
    ensures StopsAt(components, used, k)
    decreases n
  {
    hide Join;
    if n > 0 && Join(components[n - 1..]) !in used {
      k := n - 1;
    } else {
      k := LastUnused(components, used, n - 1);
    }
  }

  /** The final name is taken exactly when the components collide. */
  lemma FinalNameTakenIff(paths: seq<string>, i: nat)
    requires i < |paths|
    ensures var used := AssignNames(paths[..i]).namePath.Keys;
            Taken(NameAt(paths, i), used) <==> Collides(PathComponents(paths[i]), used)
  {
    hide Split, AssignNames, Walk, Join, StopsAt, Taken;
    var before, used := AssignNames(paths[..i]), AssignNames(paths[..i]).namePath.Keys;
    var c, name := PathComponents(paths[i]), NameAt(paths, i);
    FoundUnusedIff(paths, i);
    NextNameFacts(paths[i], before);
    if Exhausted(c, used) {
      SelfTaken(name, used);
    } else if c == [] {
      NoComponents(c, used);
      EmptyNotTaken(name, used);
    } else {
      var k := StopsSomewhere(c, used);
      NameOfStop(paths[i], used, k);
      forall m: nat | StopsAt(c, used, m) ensures m == k { StopsOnce(c, used, k, m); }
    }
  }

  lemma SelfTaken(name: string, used: set<string>)
    requires name in used
    ensures Taken(name, used)
  {
  }

  lemma NoComponents(c: seq<string>, used: set<string>)
    requires c == []
    ensures forall k: nat :: !StopsAt(c, used, k)
    ensures forall name | JoinsSuffix(name, c) :: name == ""
  {
  }

  /** The replacement keeps lengths, so only the empty name becomes empty. */
  lemma EmptyNotTaken(name: string, used: set<string>)
    requires name == "" && name !in used
    ensures !Taken(name, used)
  {
  }

  lemma StopsSomewhere(c: seq<string>, used: set<string>) returns (k: nat)
    requires c != [] && !Exhausted(c, used)
    ensures StopsAt(c, used, k)
  {
    hide Join;
    k := LastUnused(c, used, |c|);
  }

  lemma StopsOnce(c: seq<string>, used: set<string>, k: nat, m: nat)
    requires StopsAt(c, used, k) && StopsAt(c, used, m)
    ensures k == m
  {
    hide Join;
  }

  lemma NameOfStop(path: string, used: set<string>, k: nat)
    requires StopsAt(PathComponents(path), used, k)
    ensures Walk(Split(path, "/"), "", used) == Join(PathComponents(path)[k..])
  {
    hide Split, Walk;
    var c := PathComponents(path);
    assert c + [] == c;
    WalkStops(Split(path, "/"), [], used, k);
  }

  /** The components of path i collide with the names of the paths before it. */
  ghost predicate CollidesAt(paths: seq<string>, i: nat)
    requires i < |paths|
  {
    Collides(PathComponents(paths[i]), AssignNames(paths[..i]).namePath.Keys)
  }

  /** No path is listed twice and none collides. */
  ghost predicate NoneCollides(paths: seq<string>) {
    Distinct(paths) && forall i: nat | i < |paths| :: !CollidesAt(paths, i)
  }

  ghost predicate FinalNamesDistinct(paths: seq<string>)
    requires forall p | p in paths :: p in AssignNames(paths).pathName
  {
    var n := AssignNames(paths).pathName;
    forall i, j | 0 <= i < j < |paths| :: UnderscoresToDashes(n[paths[i]]) != UnderscoresToDashes(n[paths[j]])
  }

  /** For paths without duplicates the returned names are pairwise distinct if and only if no path's
      components collide with the names of the paths before it. */
  lemma FinalNamesDistinctIff(paths: seq<string>)
    requires Distinct(paths)
    ensures forall p | p in paths :: p in AssignNames(paths).pathName
    ensures FinalNamesDistinct(paths) <==> forall i: nat | i < |paths| :: !CollidesAt(paths, i)
  {
    hide NameAt, AssignNames, PathComponents, Collides, Taken;
    EveryPathNamed(paths);
    assert paths[..|paths|] == paths;
    forall i: nat | i < |paths| ensures AssignNames(paths).pathName[paths[i]] == NameAt(paths, i) {
      NameByPath(paths, |paths|, i);
    }
    forall i: nat | i < |paths|
      ensures !CollidesAt(paths, i)
         <==> forall j | 0 <= j < i :: UnderscoresToDashes(NameAt(paths, j)) != UnderscoresToDashes(NameAt(paths, i))
    {
      FinalNameTakenIff(paths, i);
      TakenByEarlier(paths, i, NameAt(paths, i));
    }
  }

  lemma NoneCollidesNames(paths: seq<string>, p: string, q: string)
    requires NoneCollides(paths) && p in paths && q in paths && p != q
    ensures var n := AssignNames(paths).pathName;
            p in n && q in n && UnderscoresToDashes(n[p]) != UnderscoresToDashes(n[q])
  {
    hide AssignNames, CollidesAt;
    FinalNamesDistinctIff(paths);
    var i :| 0 <= i < |paths| && paths[i] == p;
    var j :| 0 <= j < |paths| && paths[j] == q;
    assert i < j || j < i;
  }

  lemma TakenByEarlier(paths: seq<string>, i: nat, name: string)
    requires i < |paths|
    ensures Taken(name, AssignNames(paths[..i]).namePath.Keys)
       <==> exists j :: 0 <= j < i && UnderscoresToDashes(NameAt(paths, j)) == UnderscoresToDashes(name)
  {
    hide NameAt, AssignNames;
    var used := AssignNames(paths[..i]).namePath.Keys;
    if Taken(name, used) {
      var n :| n in used && UnderscoresToDashes(n) == UnderscoresToDashes(name);
      UsedNames(paths, i, n);
    }
    if j :| 0 <= j < i && UnderscoresToDashes(NameAt(paths, j)) == UnderscoresToDashes(name) {
      UsedNames(paths, i, NameAt(paths, j));
    }
  }

  /** Without underscores in components nothing changes in the replacement: a path collides exactly when it
      is exhausted. */
  lemma CollidesIffExhausted(paths: seq<string>, i: nat)
    requires i < |paths| && forall p | p in paths :: NoUnderscores(PathComponents(p))
    ensures var used := AssignNames(paths[..i]).namePath.Keys;
            Collides(PathComponents(paths[i]), used) <==> Exhausted(PathComponents(paths[i]), used)
  {
    hide AssignNames, PathComponents, Exhausted, Join, NoUnderscores, JoinsSuffix;
    var used := AssignNames(paths[..i]).namePath.Keys;
    var c := PathComponents(paths[i]);
    if k: nat :| StopsAt(c, used, k) && Taken(Join(c[k..]), used) {
      StopIsUnused(c, used, k);
      SuffixJoinKept(Join(c[k..]), c);
      var n :| n in used && UnderscoresToDashes(n) == UnderscoresToDashes(Join(c[k..]));
      UsedNames(paths, i, n);
      var j :| 0 <= j < i && NameAt(paths, j) == n;
      NextNameFacts(paths[j], AssignNames(paths[..j]));
      SuffixJoinKept(n, PathComponents(paths[j]));
    }
  }

  lemma StopIsUnused(c: seq<string>, used: set<string>, k: nat)
    requires StopsAt(c, used, k)
    ensures k < |c| && Join(c[k..]) !in used && JoinsSuffix(Join(c[k..]), c)
  {
    hide Join;
  }

  /** An exhausted path gets the join of all its components, which is the name of an earlier path. */
  lemma ExhaustedPathCollides(paths: seq<string>, i: nat) returns (j: nat)
    requires i < |paths| && Exhausted(PathComponents(paths[i]), AssignNames(paths[..i]).namePath.Keys)
    ensures j < i && NameAt(paths, j) == NameAt(paths, i) == Join(PathComponents(paths[i]))
  {
    hide AssignNames, PathComponents, Exhausted, Join;
    FoundUnusedIff(paths, i);
    NextNameFacts(paths[i], AssignNames(paths[..i]));
    UsedNames(paths, i, NameAt(paths, i));
    j :| 0 <= j < i && NameAt(paths, j) == NameAt(paths, i);
  }

  /** When no component holds a dash, only a path that is a suffix of an earlier one can be exhausted. */
  lemma ExhaustedIsSuffixOfEarlier(paths: seq<string>, i: nat) returns (j: nat)
    requires i < |paths| && forall p | p in paths :: Plain(PathComponents(p))
    requires Exhausted(PathComponents(paths[i]), AssignNames(paths[..i]).namePath.Keys)
    ensures j < i && SuffixOf(PathComponents(paths[i]), PathComponents(paths[j]))
  {
    hide AssignNames, PathComponents, Exhausted, Join, Plain;
    j := ExhaustedPathCollides(paths, i);
    NextNameFacts(paths[j], AssignNames(paths[..j]));
    var own, theirs := PathComponents(paths[i]), PathComponents(paths[j]);
    var k: nat :| k <= |theirs| && Join(own) == Join(theirs[k..]);
    SuffixIsPlain(theirs, k);
    JoinInjective(own, theirs[k..]);
  }

  // ----- the conditions are needed

  lemma SplitPiece(piece: string, rest: string)
    requires '/' !in piece
    ensures Split(piece + "/" + rest, "/") == [piece] + Split(rest, "/")
    ensures Split(piece, "/") == [piece]
  {
    var w := piece + "/" + rest;
    OccursAtChar(w, '/');
    OccursAtChar(piece, '/');
    assert forall j | 0 <= j < |piece| :: w[j] == piece[j] && piece[j] in piece;
    assert OccursAt(w, "/", |piece|);
    assert IndexFrom(w, "/", 0) == Some(|piece|);
    assert w[..|piece|] == piece && w[|piece| + 1..] == rest;
  }

  lemma TwoPathNames(p: string, q: string, x: string, y: string)
    requires p != q && Walk(Split(p, "/"), "", {}) == x && Walk(Split(q, "/"), "", {x}) == y
    ensures AssignNames([p, q]).pathName == map[p := x, q := y]
  {
    hide Split, Walk;
    assert [p][..0] == [] && [p, q][..1] == [p];
    assert AssignNames([]).namePath.Keys == {};
    assert AssignNames([p]).namePath == map[x := p];
    assert AssignNames([p]).namePath.Keys == {x};
  }

  lemma SplitTwo(a: string, b: string)
    requires '/' !in a && '/' !in b
    ensures Split("/" + a, "/") == ["", a] && Split("/" + a + "/" + b, "/") == ["", a, b]
  {
    hide Split;
    assert "/" + a == "" + "/" + a && "/" + a + "/" + b == "" + "/" + (a + "/" + b);
    SplitPiece("", a);
    SplitPiece("", a + "/" + b);
    SplitPiece(a, b);
    SplitPiece(b, "");
  }

  /** A leaf under a directory is named by the leaf alone if that is unused, else with the directory. */
  lemma WalkTwo(dir: string, leaf: string, used: set<string>)
    requires dir != "" && leaf != "" && '/' !in dir && '/' !in leaf
    ensures Walk(["", leaf], "", used) == leaf
    ensures Walk(["", dir, leaf], "", used) == if leaf in used then dir + "-" + leaf else leaf
  {
    hide Walk;
    assert ["", leaf] == [""] + [leaf] && ["", dir, leaf] == ["", dir] + [leaf] && ["", dir] == [""] + [dir] && [""] == [] + [""];
    WalkTurn([""], leaf, "", used);
    WalkTurn(["", dir], leaf, "", used);
    WalkTurn([""], dir, leaf, used);
    WalkTurn([], "", leaf, used);
    WalkTurn([], "", dir + "-" + leaf, used);
  }

  /** The second of these paths is exhausted by the first: its only suffix is the first one's name. */
  lemma SuffixPathCollides(dir: string, leaf: string)
    requires dir != "" && leaf != "" && '/' !in dir && '/' !in leaf
    ensures var paths := ["/" + dir + "/" + leaf, "/" + leaf];
            AssignNames(paths).pathName == map[paths[0] := leaf, paths[1] := leaf]
  {
    hide Split, Walk;
    SplitTwo(dir, leaf);
    SplitTwo(leaf, leaf);
    WalkTwo(dir, leaf, {});
    WalkTwo(dir, leaf, {leaf});
    TwoPathNames("/" + dir + "/" + leaf, "/" + leaf, leaf, leaf);
  }

  /** A suffix of an earlier path need not be exhausted: with two components it gets the longer name. */
  lemma LongerSuffixKeepsItsName(top: string, dir: string, leaf: string)
    requires top != "" && dir != "" && leaf != "" && '/' !in top && '/' !in dir && '/' !in leaf
    ensures var paths := ["/" + top + "/" + dir + "/" + leaf, "/" + dir + "/" + leaf];
            AssignNames(paths).pathName == map[paths[0] := leaf, paths[1] := dir + "-" + leaf]
  {
    var p, q := "/" + top + "/" + dir + "/" + leaf, "/" + dir + "/" + leaf;
    SplitThree(top, dir, leaf);
    SplitTwo(dir, leaf);
    WalkTwo(dir, leaf, {leaf});
    hide Split, Walk;
    assert ["", top, dir, leaf] == ["", top, dir] + [leaf];
    WalkTurn(["", top, dir], leaf, "", {});
    assert |p| > |q|;
    TwoPathNames(p, q, leaf, dir + "-" + leaf);
  }

  lemma SplitThree(a: string, b: string, c: string)
    requires '/' !in a && '/' !in b && '/' !in c
    ensures Split("/" + a + "/" + b + "/" + c, "/") == ["", a, b, c]
  {
    hide Split;
    assert "/" + a + "/" + b + "/" + c == "" + "/" + (a + "/" + (b + "/" + c));
    SplitPiece("", a + "/" + (b + "/" + c));
    SplitPiece(a, b + "/" + c);
    SplitPiece(b, c);
    SplitPiece(c, "");
  }

  /** Paths whose components differ only in underscores and dashes end up with one name. */
  lemma UnderscorePathsCollide(a: string, b: string)
    requires a != "" && b != "" && '/' !in a && '/' !in b && a != b
    requires UnderscoresToDashes(a) == UnderscoresToDashes(b)
    ensures var paths := ["/" + a, "/" + b]; var n := AssignNames(paths).pathName;
            n == map[paths[0] := a, paths[1] := b] && UnderscoresToDashes(n[paths[0]]) == UnderscoresToDashes(n[paths[1]])
  {
    hide Split, Walk;
    SplitTwo(a, b);
    SplitTwo(b, a);
    WalkTwo(a, a, {});
    WalkTwo(b, b, {a});
    var p: string, q: string := "/" + a, "/" + b;
    assert p[1..] == a && q[1..] == b;
    TwoPathNames(p, q, a, b);
  }
}
