/** The walk both routes perform: visit the entries in order and stop at the
    first one that satisfies the test. */
module Search {
  import opened Wrappers

  /** `i` is the position of the first entry of `xs` satisfying `p`. */
  ghost predicate IsFirstWhere<T>(xs: seq<T>, p: T -> bool, i: int)
  {
    0 <= i < |xs| && p(xs[i]) && forall j :: 0 <= j < i ==> !p(xs[j])
  }

  /** The position the walk breaks at, or None when it runs off the end. */
  function FirstWhere<T>(xs: seq<T>, p: T -> bool): (r: Option<nat>)
    ensures r.None? <==> forall j :: 0 <= j < |xs| ==> !p(xs[j])
    ensures r.Some? ==> IsFirstWhere(xs, p, r.value)
    decreases |xs|
  {
    if |xs| == 0 then None
    else if p(xs[0]) then Some(0)
    else
      match FirstWhere(xs[1..], p)
      case None =>
        assert forall j :: 1 <= j < |xs| ==> xs[j] == xs[1..][j - 1];
        None
      case Some(k) =>
        assert forall j :: 1 <= j <= k ==> xs[j] == xs[1..][j - 1];
        Some(k + 1)
  }

  /** There is only one first position. */
  lemma FirstWhereUnique<T>(xs: seq<T>, p: T -> bool, i: int, k: int)
    requires IsFirstWhere(xs, p, i) && IsFirstWhere(xs, p, k)
    ensures i == k
  {
  }
}
