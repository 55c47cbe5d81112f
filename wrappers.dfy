/** Option and Result for Go's nil pointers and error returns, and the
    first-match search that every rule scan of the engine performs. */
module Wrappers {

  datatype Option<+T> = None | Some(value: T)

  datatype Result<+R, +E> = Success(value: R) | Failure(error: E)

  /** The index of the first element of `xs` that `accept` holds of, scanning in order. */
  function FirstMatch<T>(xs: seq<T>, accept: T -> bool): (r: Option<nat>)
    ensures r.Some? ==> r.value < |xs| && accept(xs[r.value])
    ensures r.Some? ==> forall j :: 0 <= j < r.value ==> !accept(xs[j])
    ensures r.None? <==> forall j :: 0 <= j < |xs| ==> !accept(xs[j])
  {
    if xs == [] then None
    else if accept(xs[0]) then Some(0)
    else
      match FirstMatch(xs[1..], accept)
      case None => None
      case Some(k) => Some(k + 1)
  }

}
