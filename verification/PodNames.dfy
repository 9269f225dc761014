/** StatefulSet pod names and the ordinal read back from them. */
module PodNames {
  import opened Wrappers
  import opened GoStrings

  /** fmt.Sprintf("%s-%d", stsName, ordinal) */
  function PodName(sts: string, ordinal: int): string {
    sts + "-" + FormatInt(ordinal)
  }

  /** Two's complement truncation to 64 and to 32 bits. */
  function Int64(x: int): int {
    (x + INT64_BOUND) % (2 * INT64_BOUND) - INT64_BOUND
  }

  function Int32(x: int): int {
    (x + INT32_BOUND) % (2 * INT32_BOUND) - INT32_BOUND
  }

  /** The byte subtraction c - '0', which wraps at 256 for foreign characters. */
  function DigitValue(c: char): int {
    (c as int - 48) % 256
  }

  function Accumulate(s: string, acc: int): int {
    if s == "" then acc else Accumulate(s[1..], Int64(acc * 10 + DigitValue(s[0])))
  }

  /** The position of the last dash before i. */
  function LastDash(s: string, i: nat): (r: Option<nat>)
    requires i <= |s|
    ensures r.Some? ==> r.value < i && s[r.value] == '-'
  {
    if i == 0 then None else if s[i - 1] == '-' then Some(i - 1) else LastDash(s, i - 1)
  }

  function OrdinalOf(podName: string): int {
    var dash := LastDash(podName, |podName|);
    if dash.None? then 0 else Accumulate(podName[dash.value + 1..], 0)
  }

  method ExtractOrdinal(podName: string) returns (ordinal: int)
    ensures ordinal == OrdinalOf(podName)
  {
    var i := |podName| - 1;
    while i >= 0
      invariant -1 <= i < |podName|
      invariant LastDash(podName, |podName|) == LastDash(podName, i + 1)
    {
      if podName[i] == '-' {
        ordinal := 0;
        var j := i + 1;
        while j < |podName|
          invariant i < j <= |podName|
          invariant Accumulate(podName[i + 1..], 0) == Accumulate(podName[j..], ordinal)
        {
          ordinal := Int64(ordinal * 10 + DigitValue(podName[j]));
          assert podName[j..][1..] == podName[j + 1..];
          j := j + 1;
        }
        return;
      }
      i := i - 1;
    }
    ordinal := 0;
  }

  lemma {:induction false} LastDashBeforeDigits(s: string, i: nat, k: nat)
    requires k < i <= |s| && s[k] == '-'
    requires forall j | k < j < i :: s[j] != '-'
    ensures LastDash(s, i) == Some(k)
  {
    if i - 1 > k {
      LastDashBeforeDigits(s, i - 1, k);
    }
  }

  lemma {:induction false} AccumulateSnoc(s: string, c: char, acc: int)
    ensures Accumulate(s + [c], acc) == Int64(Accumulate(s, acc) * 10 + DigitValue(c))
    decreases |s|
  {
    if s == "" {
      assert (s + [c])[1..] == "";
    } else {
      assert (s + [c])[1..] == s[1..] + [c];
      AccumulateSnoc(s[1..], c, Int64(acc * 10 + DigitValue(s[0])));
    }
  }

  /** The wrapped value is the one number in range that differs by a multiple of the modulus. */
  lemma Int64Iff(x: int, r: int)
    ensures Int64(x) == r
       <==> -0x8000_0000_0000_0000 <= r < 0x8000_0000_0000_0000 && (x - r) % 0x1_0000_0000_0000_0000 == 0
  {
  }

  lemma Int32Iff(x: int, r: int)
    ensures Int32(x) == r <==> -0x8000_0000 <= r < 0x8000_0000 && (x - r) % 0x1_0000_0000 == 0
  {
  }

  /** A byte below '0' counts as one from 208 to 255. */
  lemma DigitValueOf(c: char)
    requires c as int < 256
    ensures DigitValue(c) == if '0' <= c then c as int - 48 else c as int + 208
  {
  }

  lemma DigitStep(high: nat, d: nat)
    requires d < 10 && high * 10 + d < INT64_BOUND
    ensures Int64(high * 10 + DigitValue(DigitChar(d))) == high * 10 + d
  {
    assert DigitValue(DigitChar(d)) == d;
  }

  lemma {:induction false} AccumulateDecimal(n: nat)
    requires n < INT64_BOUND
    ensures Accumulate(Decimal(n), 0) == n
  {
    var high, d := n / 10, n % 10;
    DigitStep(high, d);
    if n < 10 {
      assert Decimal(n) == "" + [DigitChar(d)];
      AccumulateSnoc("", DigitChar(d), 0);
    } else {
      AccumulateDecimal(high);
      AccumulateSnoc(Decimal(high), DigitChar(d), 0);
    }
  }

  /** Only what follows the last dash is read; a name without a dash has ordinal 0. */
  lemma OrdinalAfterLastDash(front: string, digits: string)
    requires '-' !in digits
    ensures OrdinalOf(digits) == 0
    ensures OrdinalOf(front + "-" + digits) == Accumulate(digits, 0)
  {
    var s := front + "-" + digits;
    forall j | |front| < j < |s| ensures s[j] != '-' { assert s[j] == digits[j - |front| - 1]; }
    LastDashBeforeDigits(s, |s|, |front|);
    assert s[|front| + 1..] == digits;
  }

  /** Reading the ordinal of a pod name gives back the ordinal the name was built from,
      whatever dashes the StatefulSet name holds. */
  lemma OrdinalOfPodName(sts: string, n: nat)
    requires n < INT64_BOUND
    ensures OrdinalOf(PodName(sts, n)) == n
  {
    var s := PodName(sts, n);
    var k := |sts|;
    assert s[k + 1..] == Decimal(n);
    forall j | k < j < |s| ensures s[j] != '-' {
      assert IsDigit(Decimal(n)[j - k - 1]);
    }
    LastDashBeforeDigits(s, |s|, k);
    AccumulateDecimal(n);
  }
}
