/** Option and Result, the two failure-carrying datatypes the model uses
    in place of Python's None and exceptions. */
module Wrappers {

  datatype Option<+T> = None | Some(value: T) {
    function GetOr(default: T): T {
      match this
      case Some(v) => v
      case None => default
    }
  }

  datatype Result<+T, +E> = Ok(value: T) | Err(error: E)

  /** Apply f to every element in order, stopping at the first failure. */
  function MapAll<A, B, E>(f: A -> Result<B, E>, xs: seq<A>): Result<seq<B>, E>
    decreases |xs|
  {
    if xs == [] then Ok([])
    else match MapAll(f, xs[..|xs| - 1])
      case Err(x) => Err(x)
      case Ok(ys) =>
        match f(xs[|xs| - 1])
        case Err(x) => Err(x)
        case Ok(y) => Ok(ys + [y])
  }

  /** MapAll fails exactly when f fails on some element, and otherwise
      holds f's value for each element. */
  lemma {:induction false} MapAllResult<A, B, E>(f: A -> Result<B, E>, xs: seq<A>)
    ensures MapAll(f, xs).Err? <==> exists k :: 0 <= k < |xs| && f(xs[k]).Err?
    ensures MapAll(f, xs).Ok? ==>
      |MapAll(f, xs).value| == |xs|
      && forall k :: 0 <= k < |xs| ==> f(xs[k]) == Ok(MapAll(f, xs).value[k])
    decreases |xs|
  {
    if xs != [] {
      var p := xs[..|xs| - 1];
      MapAllResult(f, p);
      assert forall k :: 0 <= k < |p| ==> xs[k] == p[k];
    }
  }

  /** Extending the input by one element that f maps to y extends the
      result by y. */
  lemma MapAllStep<A, B, E>(f: A -> Result<B, E>, xs: seq<A>, n: nat, y: B)
    requires n < |xs| && MapAll(f, xs[..n]).Ok? && f(xs[n]) == Ok(y)
    ensures MapAll(f, xs[..n + 1]) == Ok(MapAll(f, xs[..n]).value + [y])
  {
    assert xs[..n + 1][..n] == xs[..n];
  }
}
