/** The names of persistent volume claims, and the collection of the claims a scale-down leaves behind. */
module PvcNames {
  import opened Wrappers
  import opened GoStrings

  function BuildPVCName(sts: string, ordinal: string, volume: string): string {
    var name := sts + "-" + ordinal;
    if volume != "" then volume + "-" + name else name
  }

  /** The claim of a volume at an ordinal. */
  function ClaimName(sts: string, n: nat, volume: string): string {
    BuildPVCName(sts, Decimal(n), volume)
  }

  // ----- collecting unused claims

  /** The ordinal the collector reads from a claim name: the name must split in two at the StatefulSet
      name and a dash, and the second part must be a 32-bit integer. */
  function CollectedOrdinal(name: string, sts: string): Option<int> {
    var parts := Split(name, sts + "-");
    if |parts| != 2 then None else ParseInt(parts[1], INT32_BOUND)
  }

  predicate Unused(name: string, sts: string, replicas: int) {
    CollectedOrdinal(name, sts).Some? && CollectedOrdinal(name, sts).value >= replicas
  }

  function UnusedClaims(names: seq<string>, sts: string, replicas: int): seq<string> {
    if names == [] then []
    else
      UnusedClaims(names[..|names| - 1], sts, replicas)
      + if Unused(names[|names| - 1], sts, replicas) then [names[|names| - 1]] else []
  }

  method FindUnusedClaims(names: seq<string>, sts: string, replicas: int) returns (clear: seq<string>)
    ensures clear == UnusedClaims(names, sts, replicas)
    ensures forall x :: x in clear <==> x in names && Unused(x, sts, replicas)
  {
    hide Split, ParseInt;
    clear := [];
    for i := 0 to |names|
      invariant clear == UnusedClaims(names[..i], sts, replicas)
      invariant forall x :: x in clear <==> x in names[..i] && Unused(x, sts, replicas)
    {
      assert names[..i + 1][..i] == names[..i];
      var parts := Split(names[i], sts + "-");
      if |parts| != 2 { continue; }
      var index := ParseInt(parts[1], INT32_BOUND);
      if index.None? { continue; }
      if index.value >= replicas { clear := clear + [names[i]]; }
    }
    assert names[..|names|] == names;
  }

  // ----- the two codecs agree

  /** Where the separator stands in a claim name, in front of the ordinal. */
  function Head(volume: string): string { if volume != "" then volume + "-" else "" }

  lemma ClaimNameShape(sts: string, n: nat, volume: string)
    ensures ClaimName(sts, n, volume) == Head(volume) + (sts + "-") + Decimal(n)
    ensures OccursAt(ClaimName(sts, n, volume), sts + "-", |Head(volume)|)
  {
    var name := ClaimName(sts, n, volume);
    assert name == Head(volume) + (sts + "-") + Decimal(n);
  }

  /** A dash is at best a sign. */
  lemma DigitsOnlyParse(s: string, k: nat)
    requires k < |s| && s[k] == '-'
    ensures ParseInt(s, INT32_BOUND).Some? ==> k == 0 && ParseInt(s, INT32_BOUND).value <= 0
  {
    hide ParseDigits;
  }

  /** The StatefulSet's name is not made of dashes alone, as no Kubernetes name is. */
  ghost predicate Nameable(sts: string) { exists c :: c in sts && c != '-' }

  /** Two occurrences of a string one position apart make all its characters the same. */
  lemma {:induction false} ShiftedOccurrence(s: string, sep: string, i: nat, m: nat)
    requires OccursAt(s, sep, i) && OccursAt(s, sep, i + 1) && m < |sep|
    ensures sep[m] == sep[|sep| - 1]
    decreases |sep| - m
  {
    if m < |sep| - 1 {
      assert s[i..i + |sep|][m + 1] == s[i + 1 + m] == s[i + 1..i + 1 + |sep|][m];
      ShiftedOccurrence(s, sep, i, m + 1);
    }
  }

  lemma NoShiftedSeparator(name: string, sts: string, i: nat)
    requires Nameable(sts) && OccursAt(name, sts + "-", i)
    ensures !OccursAt(name, sts + "-", i + 1)
  {
    var c :| c in sts && c != '-';
    var m :| 0 <= m < |sts| && sts[m] == c;
    assert (sts + "-")[m] == c;
    if OccursAt(name, sts + "-", i + 1) {
      ShiftedOccurrence(name, sts + "-", i, m);
    }
  }

  /** What the collector reads from a claim name: the ordinal itself when the first separator is the
      one in front of the ordinal; nothing positive when an earlier one shifts the cut, and nothing at all
      when the StatefulSet's name is not made of dashes. */
  lemma CollectedOrdinalOfClaim(sts: string, n: nat, volume: string)
    ensures var name, sep := ClaimName(sts, n, volume), sts + "-";
            var read := CollectedOrdinal(name, sts);
            if IndexFrom(name, sep, 0) == Some(|Head(volume)|) && |Split(name, sep)| == 2
            then read == if n < INT32_BOUND then Some(n as int) else None
            else (read.Some? ==> read.value <= 0) && (Nameable(sts) ==> read.None?)
  {
    hide Split, ClaimName, ParseInt;
    var name, sep := ClaimName(sts, n, volume), sts + "-";
    ClaimNameShape(sts, n, volume);
    if |Split(name, sep)| == 2 {
      var p, first := |Head(volume)|, IndexFrom(name, sep, 0).value;
      var rest := name[first + |sep|..];
      SplitOnce(name, sep);
      if first == p {
        assert rest == Decimal(n);
        ParseIntOfDecimal(n, INT32_BOUND);
      } else {
        ShiftedCut(name, sts, p, first);
      }
    }
  }

  /** A cut at an earlier separator leaves the dash of the later one in the rest. */
  lemma ShiftedCut(name: string, sts: string, p: nat, first: nat)
    requires first < p && OccursAt(name, sts + "-", first) && OccursAt(name, sts + "-", p)
    ensures var read := ParseInt(name[first + |sts| + 1..], INT32_BOUND);
            (read.Some? ==> read.value <= 0) && (Nameable(sts) ==> read.None?)
  {
    hide ParseInt;
    var sep := sts + "-";
    var rest := name[first + |sep|..];
    assert name[p..p + |sep|][|sts|] == sep[|sts|] == '-';
    assert rest[p - first - 1] == name[p + |sts|];
    DigitsOnlyParse(rest, p - first - 1);
    if Nameable(sts) && p == first + 1 { NoShiftedSeparator(name, sts, first); }
  }

  lemma SplitOnce(s: string, sep: string)
    requires sep != "" && |Split(s, sep)| == 2
    ensures IndexFrom(s, sep, 0).Some? && Split(s, sep)[1] == s[IndexFrom(s, sep, 0).value + |sep|..]
  {
  }

  /** A claim whose ordinal is in use is never collected, whatever the names: even when the separator
      recurs in the volume's name or overlaps itself. */
  lemma UsedClaimIsKept(sts: string, n: nat, volume: string, replicas: nat)
    requires n < replicas
    ensures !Unused(ClaimName(sts, n, volume), sts, replicas)
  {
    hide CollectedOrdinal, ClaimName, Split;
    CollectedOrdinalOfClaim(sts, n, volume);
  }

  /** The StatefulSet name and a dash occur in the claim name only in front of the ordinal. */
  ghost predicate SeparatorOnce(sts: string, n: nat, volume: string) {
    forall i: nat :: OccursAt(ClaimName(sts, n, volume), sts + "-", i) ==> i == |Head(volume)|
  }

  /** No separator starts after the one in front of the ordinal: it would end in a digit. */
  lemma NoLaterSeparator(sts: string, n: nat, volume: string, i: nat)
    requires i > |Head(volume)|
    ensures !OccursAt(ClaimName(sts, n, volume), sts + "-", i)
  {
    var name, sep := ClaimName(sts, n, volume), sts + "-";
    ClaimNameShape(sts, n, volume);
    var last := i + |sep| - 1;
    if last < |name| {
      assert name[last] == Decimal(n)[last - |Head(volume)| - |sep|];
      assert name[i..i + |sep|][|sep| - 1] == name[last];
      assert IsDigit(name[last]) && sep[|sep| - 1] == '-';
    }
  }

  lemma CutAtFirst(sts: string, n: nat, volume: string)
    requires IndexFrom(ClaimName(sts, n, volume), sts + "-", 0) == Some(|Head(volume)|)
    ensures |Split(ClaimName(sts, n, volume), sts + "-")| == 2
  {
    hide ClaimName, Head;
    var name, sep, p := ClaimName(sts, n, volume), sts + "-", |Head(volume)|;
    var rest := name[p + |sep|..];
    forall i: nat ensures !OccursAt(rest, sep, i) {
      NoLaterSeparator(sts, n, volume, p + |sep| + i);
      OccursInRest(name, sep, p + |sep|, i);
    }
    assert Split(rest, sep) == [rest];
    assert Split(name, sep) == [name[..p]] + [rest];
  }

  /** When the separator occurs once and the ordinal is a 32-bit number, a claim is collected exactly
      when its ordinal is no longer in use. */
  lemma CollectedIffUnused(sts: string, n: nat, volume: string, replicas: nat)
    requires n < INT32_BOUND && SeparatorOnce(sts, n, volume)
    ensures Unused(ClaimName(sts, n, volume), sts, replicas) <==> n >= replicas
  {
    hide ClaimName, Head, Split, ParseInt;
    ClaimNameShape(sts, n, volume);
    CutAtFirst(sts, n, volume);
    CollectedOrdinalOfClaim(sts, n, volume);
  }

  /** These are exactly the claims collected: those whose ordinal is not in use, fits in 32 bits, and
      follows the only separator in the name. */
  lemma CollectedExactly(sts: string, n: nat, volume: string, replicas: nat)
    requires replicas > 0 || Nameable(sts)
    ensures Unused(ClaimName(sts, n, volume), sts, replicas)
       <==> n >= replicas && n < INT32_BOUND && SeparatorOnce(sts, n, volume)
  {
    hide ClaimName, Head, Split, ParseInt;
    CollectedOrdinalOfClaim(sts, n, volume);
    if Unused(ClaimName(sts, n, volume), sts, replicas) {
      forall i: nat ensures OccursAt(ClaimName(sts, n, volume), sts + "-", i) ==> i == |Head(volume)| {
        if i > |Head(volume)| { NoLaterSeparator(sts, n, volume, i); }
      }
    }
    if n < INT32_BOUND && SeparatorOnce(sts, n, volume) {
      CollectedIffUnused(sts, n, volume, replicas);
    }
  }

  // ----- what one collection clears

  lemma {:induction false} ClearedOften(names: seq<string>, sts: string, replicas: int, x: string)
    ensures multiset(UnusedClaims(names, sts, replicas))[x] == if Unused(x, sts, replicas) then multiset(names)[x] else 0
  {
    hide Unused;
    if names != [] {
      var k := |names| - 1;
      assert names == names[..k] + [names[k]];
      ClearedOften(names[..k], sts, replicas, x);
    }
  }

  /** No claim of an ordinal in use is among the claims cleared. */
  lemma ClearsNoUsedClaim(names: seq<string>, sts: string, n: nat, volume: string, replicas: nat)
    requires n < replicas
    ensures ClaimName(sts, n, volume) !in UnusedClaims(names, sts, replicas)
  {
    hide ClaimName, Unused;
    UsedClaimIsKept(sts, n, volume, replicas);
    ClearedOften(names, sts, replicas, ClaimName(sts, n, volume));
  }

  /** A claim is cleared as often as it is listed when its ordinal is not in use, fits in 32 bits and
      follows the only separator in the name; otherwise it stays. */
  lemma ClearsExactly(names: seq<string>, sts: string, n: nat, volume: string, replicas: nat)
    requires replicas > 0 || Nameable(sts)
    ensures multiset(UnusedClaims(names, sts, replicas))[ClaimName(sts, n, volume)]
         == if n >= replicas && n < 0x8000_0000 && SeparatorOnce(sts, n, volume) then multiset(names)[ClaimName(sts, n, volume)] else 0
  {
    hide ClaimName, Unused, SeparatorOnce, Nameable;
    CollectedExactly(sts, n, volume, replicas);
    ClearedOften(names, sts, replicas, ClaimName(sts, n, volume));
  }

  /** The separator may be hidden by an earlier, overlapping one: then the claim is never collected. */
  lemma OverlappingSeparatorHidesClaim()
    ensures ClaimName("a-a", 7, "a") == "a-a-a-7"
    ensures !Unused("a-a-a-7", "a-a", 0)
  {
    assert Decimal(7) == "7";
    assert "a-a" + "-" == "a-a-";
    assert OccursAt("a-a-a-7", "a-a-", 0);
    assert IndexFrom("a-a-a-7", "a-a-", 0) == Some(0);
    assert "a-a-a-7"[4..] == "a-7";
    assert IndexFrom("a-7", "a-a-", 0) == None;
    assert Split("a-a-a-7", "a-a-") == ["", "a-7"];
    assert ParseDigits("a-7").None?;
  }

  /** What follows the last dash, when it is all digits, and what precedes it can be read back. */
  lemma CutAtLastDash(a: string, b: string, s: string, t: string)
    requires AllDigits(s) && AllDigits(t) && a + "-" + s == b + "-" + t
    ensures a == b && s == t
  {
    var name := a + "-" + s;
    assert forall i | |a| < i < |name| :: name[i] == s[i - |a| - 1];
    assert forall i | |b| < i < |name| :: name[i] == t[i - |b| - 1];
    assert name[|a|] == '-' && name[|b|] == '-';
    assert a == name[..|a|] && b == name[..|b|];
    assert s == name[|a| + 1..] && t == name[|b| + 1..];
  }

  lemma HeadsDiffer(sts: string, v: string, w: string)
    requires Head(v) + sts == Head(w) + sts
    ensures v == w
  {
    assert Head(v) == (Head(v) + sts)[..|Head(v)|] && Head(w) == (Head(w) + sts)[..|Head(w)|];
    if v != "" && w != "" {
      assert v == Head(v)[..|v|] && w == Head(w)[..|w|];
    }
  }

  /** Distinct (volume, ordinal) pairs have distinct claim names. */
  lemma ClaimNamesDiffer(sts: string, m: nat, n: nat, v: string, w: string)
    requires ClaimName(sts, m, v) == ClaimName(sts, n, w)
    ensures m == n && v == w
  {
    hide Head;
    ClaimNameShape(sts, m, v);
    ClaimNameShape(sts, n, w);
    assert ClaimName(sts, m, v) == Head(v) + sts + "-" + Decimal(m);
    assert ClaimName(sts, n, w) == Head(w) + sts + "-" + Decimal(n);
    CutAtLastDash(Head(v) + sts, Head(w) + sts, Decimal(m), Decimal(n));
    DecimalInjective(m, n);
    HeadsDiffer(sts, v, w);
  }
}
