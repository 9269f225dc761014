/** Finite sets of integers: ranges and sizes. */
module IntSets {

  ghost function Range(low: int, high: int): (r: set<int>)
    requires low <= high
    ensures |r| == high - low && forall k :: k in r <==> low <= k < high
    decreases high - low
  {
    if low == high then {} else {low} + Range(low + 1, high)
  }

  lemma SubsetOfSameSize(a: set<int>, b: set<int>)
    requires a <= b && |a| == |b|
    ensures a == b
  {
    assert |b - a| == 0;
    assert b == a + (b - a);
  }

  lemma FillsRange(s: set<int>, low: int, high: int)
    requires low <= high && |s| == high - low && forall k | k in s :: low <= k < high
    ensures forall k :: k in s <==> low <= k < high
  {
    SubsetOfSameSize(s, Range(low, high));
  }

  /** A set that is not empty has an element to pick. */
  lemma SomeElement(s: set<int>)
    requires s != {}
    ensures exists k :: k in s
  {
    assert (forall k :: k !in s) ==> s == {};
  }
}
