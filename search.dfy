/**
 * A loop that scans a sequence in order and stops at the first element with a property, as
 * Go code does with `for _, x := range xs { if p(x) { … return } }`.
 */
module Search {
  import opened Wrappers

  /** The first index at or after `from` whose element satisfies `p`, or None. */
  function FirstFrom<A>(xs: seq<A>, p: A -> bool, from: nat): (r: Option<nat>)
    requires from <= |xs|
    ensures r.None? <==> forall i | from <= i < |xs| :: !p(xs[i])
    ensures r.Some? ==> from <= r.value < |xs| && p(xs[r.value])
    ensures r.Some? ==> forall j | from <= j < r.value :: !p(xs[j])
    decreases |xs| - from
  {
    if from == |xs| then None
    else if p(xs[from]) then Some(from)
    else FirstFrom(xs, p, from + 1)
  }
}
