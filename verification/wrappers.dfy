/** Optional values and results shared by every module of the model.

    `Option` stands for a JavaScript value that may be `undefined`;
    `Result` stands for an async function that either resolves with a value
    or rejects with an error.
 */
module Wrappers {

  datatype Option<+T> = None | Some(value: T) {

    /** The wrapped value, or `default` when there is none. */
    function GetOr(default: T): T {
      match this
      case Some(v) => v
      case None => default
    }
  }

  datatype Result<+R, +E> = Success(value: R) | Failure(error: E)
}

/** Searching a sequence for the first element that satisfies a test. */
module Seqs {
  import opened Wrappers

  /** The index of the first element of `xs` that satisfies `p`, if any.
      Models a `for … of` loop that returns at the first matching element. */
  function FirstMatch<T>(xs: seq<T>, p: T -> bool): (r: Option<nat>)
    ensures r.Some? ==> r.value < |xs| && p(xs[r.value])
    ensures r.Some? ==> forall j :: 0 <= j < r.value ==> !p(xs[j])
    ensures r.None? <==> forall j :: 0 <= j < |xs| ==> !p(xs[j])
    decreases |xs|
  {
    if |xs| == 0 then None
    else if p(xs[0]) then Some(0)
    else
      match FirstMatch(xs[1..], p)
      case None => None
      case Some(k) => Some(k + 1)
  }

  /** Two tests that agree on every element of `xs` find the same first match. */
  lemma {:induction false} FirstMatchAgree<T>(xs: seq<T>, p: T -> bool, q: T -> bool)
    requires forall i :: 0 <= i < |xs| ==> p(xs[i]) == q(xs[i])
    ensures FirstMatch(xs, p) == FirstMatch(xs, q)
    decreases |xs|
  {
    if |xs| > 0 && !p(xs[0]) {
      FirstMatchAgree(xs[1..], p, q);
    }
  }
}
