/** The string operations of the operator: searching, splitting, joining, and decimal numbers.
    Names are ASCII, so a string is a sequence of characters. */
module GoStrings {
  import opened Wrappers

  // ----- searching and splitting

  predicate OccursAt(s: string, sep: string, i: nat) {
    i + |sep| <= |s| && s[i..i + |sep|] == sep
  }

  /** The first occurrence of sep at position i or later. */
  function IndexFrom(s: string, sep: string, i: nat): (r: Option<nat>)
    ensures r.Some? ==> i <= r.value && OccursAt(s, sep, r.value)
    ensures r.Some? ==> forall j: nat | i <= j < r.value :: !OccursAt(s, sep, j)
    ensures r.None? ==> forall j: nat | i <= j :: !OccursAt(s, sep, j)
    decreases |s| - i
  {
    if i + |sep| > |s| then None
    else if OccursAt(s, sep, i) then Some(i)
    else IndexFrom(s, sep, i + 1)
  }

  /** strings.Split for a non-empty separator: cut at the leftmost non-overlapping occurrences. */
  function Split(s: string, sep: string): (r: seq<string>)
    requires sep != ""
    ensures |r| > 0
    decreases |s|
  {
    var at := IndexFrom(s, sep, 0);
    if at.None? then [s] else [s[..at.value]] + Split(s[at.value + |sep|..], sep)
  }

  /** An occurrence in the rest of a string is one in the string. */
  lemma OccursInRest(s: string, sep: string, start: nat, i: nat)
    requires start <= |s|
    ensures OccursAt(s[start..], sep, i) <==> OccursAt(s, sep, start + i)
  {
    if start + i + |sep| <= |s| {
      assert s[start..][i..i + |sep|] == s[start + i..start + i + |sep|];
    }
  }

  /** Split cuts at the first occurrence and goes on behind it. */
  lemma FirstCut(s: string, sep: string, head: string, rest: string)
    requires sep != "" && s == head + sep + rest
    requires forall i: nat | i < |head| :: !OccursAt(s, sep, i)
    ensures Split(s, sep) == [head] + Split(rest, sep)
  {
    assert s[|head|..|head| + |sep|] == sep;
    assert OccursAt(s, sep, |head|);
    assert IndexFrom(s, sep, 0) == Some(|head|);
    assert s[|head| + |sep|..] == rest && s[..|head|] == head;
  }

  /** A string without the separator is one piece. */
  lemma NoCut(s: string, sep: string)
    requires sep != "" && forall i: nat :: !OccursAt(s, sep, i)
    ensures Split(s, sep) == [s]
  {
  }

  function Last<T>(s: seq<T>): T
    requires |s| > 0
  {
    s[|s| - 1]
  }

  lemma LastOfLonger<T>(head: T, tail: seq<T>)
    requires |tail| > 0
    ensures Last([head] + tail) == Last(tail)
  {
  }

  /** When the part after the last dash holds no dash, it is the last piece. */
  lemma {:induction false} LastPieceAfterDash(s: string, t: string)
    requires '-' !in t
    ensures Last(Split(s + "-" + t, "-")) == t
    decreases |s|
  {
    var w := s + "-" + t;
    assert OccursAt(w, "-", |s|);
    var at := IndexFrom(w, "-", 0).value;
    assert w[at..at + 1] == "-";
    var rest := w[at + 1..];
    if at < |s| {
      assert rest == s[at + 1..] + "-" + t;
      LastPieceAfterDash(s[at + 1..], t);
    } else {
      assert w[at] == '-';
      assert at == |s|;
      assert rest == t;
      NoDash(t);
    }
    LastOfLonger(w[..at], Split(rest, "-"));
  }

  lemma OccursAtChar(s: string, c: char)
    ensures forall i: nat :: OccursAt(s, [c], i) <==> i < |s| && s[i] == c
  {
    forall i: nat ensures OccursAt(s, [c], i) <==> i < |s| && s[i] == c {
      if i < |s| { assert s[i..i + 1] == [s[i]]; }
    }
  }

  lemma NoDash(t: string)
    requires '-' !in t
    ensures Split(t, "-") == [t]
  {
    OccursAtChar(t, '-');
  }

  /** Cutting at a dot keeps a dot-free prefix whole. */
  lemma FirstPieceBeforeDot(s: string, t: string)
    requires '.' !in s
    ensures Split(s + "." + t, ".")[0] == s
    ensures Split(s, ".")[0] == s
  {
    var w := s + "." + t;
    assert OccursAt(w, ".", |s|);
    OccursAtChar(w, '.');
    OccursAtChar(s, '.');
    assert IndexFrom(w, ".", 0) == Some(|s|);
  }

  predicate HasPrefix(s: string, p: string) {
    |p| <= |s| && s[..|p|] == p
  }

  /** strings.ReplaceAll(s, "_", "-") */
  function UnderscoresToDashes(s: string): (r: string)
    ensures |r| == |s|
    ensures forall i | 0 <= i < |s| :: r[i] == if s[i] == '_' then '-' else s[i]
  {
    seq(|s|, i requires 0 <= i < |s| => if s[i] == '_' then '-' else s[i])
  }

  // ----- decimal numbers

  predicate IsDigit(c: char) { '0' <= c <= '9' }

  ghost predicate AllDigits(s: string) { forall i | 0 <= i < |s| :: IsDigit(s[i]) }

  function DigitChar(d: nat): (c: char)
    requires d < 10
    ensures IsDigit(c) && c as int == d + 48
  {
    (d + 48) as char
  }

  /** The decimal digits of a natural number. */
  function Decimal(n: nat): (s: string)
    ensures |s| > 0 && AllDigits(s)
  {
    if n < 10 then [DigitChar(n)] else Decimal(n / 10) + [DigitChar(n % 10)]
  }

  /** strconv.FormatInt(n, 10) and "%d" for any integer. */
  function FormatInt(n: int): string {
    if n < 0 then "-" + Decimal(0 - n) else Decimal(n)
  }

  /** The number a digit string denotes; None for an empty string or a foreign character. */
  function ParseDigits(s: string): (r: Option<nat>)
    ensures r.Some? ==> |s| > 0 && AllDigits(s)
  {
    if s == "" || !IsDigit(Last(s)) then None
    else
      var digit := Last(s) as int - 48;
      if |s| == 1 then Some(digit)
      else
        var high := ParseDigits(s[..|s| - 1]);
        if high.None? then None else Some(high.value * 10 + digit)
  }

  /** strconv.ParseInt(s, 10, bits): an optional sign, digits, and a range check. */
  function ParseInt(s: string, bound: int): (r: Option<int>)
    ensures r.Some? ==> 0 - bound <= r.value < bound
  {
    var negative := s != "" && s[0] == '-';
    var signed := negative || (s != "" && s[0] == '+');
    var digits := ParseDigits(if signed then s[1..] else s);
    if digits.None? then None
    else
      var value := if negative then 0 - digits.value else digits.value;
      if 0 - bound <= value < bound then Some(value) else None
  }

  /** strconv.Atoi of the part after the last dash of the text before the first dot. */
  function TrailingNumber(s: string): Option<int> {
    ParseInt(Last(Split(Split(s, ".")[0], "-")), INT64_BOUND)
  }

  const INT32_BOUND: int := 0x8000_0000
  const INT64_BOUND: int := 0x8000_0000_0000_0000

  /** The number of a name is the integer between its last dash and its first dot. */
  lemma TrailingNumberIs(before: string, t: string, after: string)
    requires '-' !in t && '.' !in before + t
    requires before == "" || Last(before) == '-'
    requires after == "" || after[0] == '.'
    ensures TrailingNumber(before + t + after) == ParseInt(t, 0x8000_0000_0000_0000)
  {
    hide Split, ParseInt, IndexFrom;
    var s, name := before + t + after, before + t;
    FirstPieceBeforeDot(name, if after == "" then "" else after[1..]);
    assert s == if after == "" then name else name + "." + after[1..];
    if before == "" {
      assert name == t;
      NoDash(t);
    } else {
      var front := before[..|before| - 1];
      assert name == front + "-" + t;
      LastPieceAfterDash(front, t);
    }
  }

  lemma {:induction false} ParseOfDecimal(n: nat)
    ensures ParseDigits(Decimal(n)) == Some(n)
  {
    if n >= 10 {
      var s := Decimal(n);
      assert s[..|s| - 1] == Decimal(n / 10);
      ParseOfDecimal(n / 10);
    }
  }

  function Zeros(z: nat): string { if z == 0 then "" else "0" + Zeros(z - 1) }

  lemma {:induction false} AllZeros(s: string)
    requires forall i | 0 <= i < |s| :: s[i] == '0'
    ensures s == Zeros(|s|)
  {
    if s != "" { AllZeros(s[1..]); assert s == "0" + s[1..]; }
  }

  /** s is the decimal form of n, with any number of zeros in front. */
  ghost predicate Denotes(s: string, n: nat) { exists z: nat :: s == Zeros(z) + Decimal(n) }

  /** A string of digits is read as n exactly when it is n in decimal behind some zeros. */
  lemma ParseDigitsIff(s: string, n: nat)
    ensures ParseDigits(s) == Some(n) <==> Denotes(s, n)
  {
    if ParseDigits(s) == Some(n) { ReadDigits(s, n); }
    if z: nat :| s == Zeros(z) + Decimal(n) { ParseZeros(z, n); }
  }

  /** One digit more. */
  lemma ParseSnoc(s: string, d: nat)
    requires d < 10
    ensures ParseDigits(s + [DigitChar(d)])
         == if s == "" then Some(d)
            else if ParseDigits(s).Some? then Some(ParseDigits(s).value * 10 + d) else None
  {
    hide AllDigits;
    var more := s + [DigitChar(d)];
    assert more[..|s|] == s && Last(more) == DigitChar(d);
    if s == "" { assert |more| == 1; }
  }

  lemma {:induction false} ReadDigits(s: string, n: nat)
    requires ParseDigits(s) == Some(n)
    ensures Denotes(s, n)
    decreases |s|
  {
    hide ParseDigits;
    var rest, d := LastDigit(s, n);
    ParseSnoc(rest, d);
    if rest == "" {
      assert s == Zeros(0) + Decimal(n);
    } else {
      var high := ParseDigits(rest).value;
      assert |rest| < |s|;
      ReadDigits(rest, high);
      var z: nat :| rest == Zeros(z) + Decimal(high);
      if high > 0 {
        assert s == Zeros(z) + Decimal(n);
      } else {
        assert rest == Zeros(z) + "0";
        ZerosMore(z);
        assert s == Zeros(z + 1) + Decimal(n);
      }
    }
  }

  lemma LastDigit(s: string, n: nat) returns (rest: string, d: nat)
    requires ParseDigits(s) == Some(n)
    ensures d < 10 && s == rest + [DigitChar(d)] && (rest != "" ==> ParseDigits(rest).Some?)
  {
    rest, d := s[..|s| - 1], s[|s| - 1] as int - 48;
    assert IsDigit(Last(s)) && DigitChar(d) == s[|s| - 1];
  }

  lemma {:induction false} ZerosMore(z: nat)
    ensures Zeros(z + 1) == Zeros(z) + "0"
  {
    if z > 0 { ZerosMore(z - 1); }
  }

  lemma {:induction false} ParseZeros(z: nat, n: nat)
    ensures ParseDigits(Zeros(z) + Decimal(n)) == Some(n)
    decreases n, z
  {
    hide ParseDigits;
    var s, d := Zeros(z) + Decimal(n), n % 10;
    if n >= 10 {
      assert s == (Zeros(z) + Decimal(n / 10)) + [DigitChar(d)];
      ParseZeros(z, n / 10);
      ParseSnoc(Zeros(z) + Decimal(n / 10), d);
    } else if z > 0 {
      ZerosMore(z - 1);
      assert s == (Zeros(z - 1) + Decimal(0)) + [DigitChar(d)];
      ParseZeros(z - 1, 0);
      ParseSnoc(Zeros(z - 1) + Decimal(0), d);
    } else {
      assert s == "" + [DigitChar(d)];
      ParseSnoc("", d);
    }
  }

  lemma DenotesDigit(s: string, n: nat)
    requires Denotes(s, n)
    ensures |s| > 0 && AllDigits(s)
  {
    hide Denotes;
    ParseDigitsIff(s, n);
  }

  /** ParseInt reads v exactly from an optional sign, some zeros and the digits of v, when v is in range. */
  lemma ParseIntIff(s: string, bound: int, v: int)
    ensures ParseInt(s, bound) == Some(v)
       <==> && 0 - bound <= v < bound
            && (|| (v >= 0 && Denotes(s, v))
                || (v >= 0 && HasPrefix(s, "+") && Denotes(s[1..], v))
                || (v <= 0 && HasPrefix(s, "-") && Denotes(s[1..], 0 - v)))
  {
    hide Denotes, ParseDigits;
    if s == "" {
      if v >= 0 && Denotes(s, v) { DenotesDigit(s, v); }
    } else {
      var rest := s[1..];
      assert HasPrefix(s, "+") <==> s[0] == '+' by { assert s[..1] == [s[0]]; }
      assert HasPrefix(s, "-") <==> s[0] == '-' by { assert s[..1] == [s[0]]; }
      if v >= 0 {
        ParseDigitsIff(s, v);
        ParseDigitsIff(rest, v);
        if Denotes(s, v) { DenotesDigit(s, v); }
      }
      if v <= 0 { ParseDigitsIff(rest, 0 - v); }
    }
  }

  lemma DecimalInjective(m: nat, n: nat)
    requires Decimal(m) == Decimal(n)
    ensures m == n
  {
    ParseOfDecimal(m);
    ParseOfDecimal(n);
  }

  lemma ParseIntOfDecimal(n: nat, bound: int)
    ensures ParseInt(Decimal(n), bound) == if n < bound then Some(n as int) else None
  {
    var s := Decimal(n);
    assert IsDigit(s[0]);
    ParseOfDecimal(n);
  }
}
