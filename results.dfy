/**
 * A loop over a sequence that stops at the first step that fails, as Go code does when every
 * iteration ends in `if err != nil { return nil, err }`.
 */
module Results {
  import opened Wrappers

  /** The results of `step` on every element, in order, or the error of the first failing step. */
  function MapUntilError<A, B>(xs: seq<A>, step: A -> Result<B>): (r: Result<seq<B>>)
    ensures r.Ok? <==> forall i | 0 <= i < |xs| :: step(xs[i]).Ok?
    ensures r.Ok? ==> |r.value| == |xs| && forall i | 0 <= i < |xs| :: step(xs[i]) == Ok(r.value[i])
    ensures r.Err? ==> exists i | 0 <= i < |xs| ::
      && (forall j | 0 <= j < i :: step(xs[j]).Ok?)
      && step(xs[i]) == Err(r.error)
    decreases |xs|
  {
    if xs == [] then Ok([])
    else
      var init := xs[..|xs| - 1];
      match MapUntilError(init, step)
      case Err(e) =>
        assert forall i | 0 <= i < |init| :: init[i] == xs[i];
        Err(e)
      case Ok(bs) =>
        assert forall i | 0 <= i < |init| :: init[i] == xs[i];
        match step(xs[|xs| - 1])
        case Err(e) => Err(e)
        case Ok(b) => Ok(bs + [b])
  }

  /** One more iteration of the loop: the prefix of length i + 1 extends the prefix of length i. */
  lemma MapUntilErrorStep<A, B>(xs: seq<A>, step: A -> Result<B>, i: nat, bs: seq<B>)
    requires i < |xs| && MapUntilError(xs[..i], step) == Ok(bs)
    ensures step(xs[i]).Err? ==> MapUntilError(xs[..i + 1], step) == Err(step(xs[i]).error)
    ensures step(xs[i]).Ok? ==> MapUntilError(xs[..i + 1], step) == Ok(bs + [step(xs[i]).value])
  {
    assert xs[..i + 1][..i] == xs[..i];
  }

  /** Once a prefix has failed, the whole loop fails with the same error. */
  lemma ErrorOfPrefix<A, B>(xs: seq<A>, step: A -> Result<B>, i: nat)
    requires i <= |xs| && MapUntilError(xs[..i], step).Err?
    ensures MapUntilError(xs, step) == MapUntilError(xs[..i], step)
  {
    var e := MapUntilError(xs[..i], step).error;
    var k :| 0 <= k < i && (forall j | 0 <= j < k :: step(xs[..i][j]).Ok?) && step(xs[..i][k]) == Err(e);
    assert xs[..i][k] == xs[k];
    assert forall j | 0 <= j < k :: xs[..i][j] == xs[j];
    var r := MapUntilError(xs, step);
    assert !step(xs[k]).Ok?;
    var k' :| 0 <= k' < |xs| && (forall j | 0 <= j < k' :: step(xs[j]).Ok?) && step(xs[k']) == Err(r.error);
    assert forall j | 0 <= j < k :: step(xs[j]).Ok?;
    assert k' == k;
  }
}
