/** Optional values and results: JavaScript's `null`/`undefined` and thrown errors. */
module Optional {

  /** A value that may be absent; `None` stands for JavaScript's `null` or `undefined`. */
  datatype Option<+T> = None | Some(value: T) {

    /** This value if present, otherwise `other` (the left-biased choice of a regex alternation). */
    function OrElse(other: Option<T>): Option<T> {
      if Some? then this else other
    }

    /** The value if present, otherwise `default`. */
    function value_or(default: T): T {
      if Some? then value else default
    }
  }

  /** The outcome of an operation that may throw. */
  datatype Result<+T, +E> = Success(value: T) | Failure(error: E)

  /**
   * The first present value of `xs`, as a chain of `||` over candidates that are each either a
   * value or nothing.
   */
  function FirstSome<T>(xs: seq<Option<T>>): (r: Option<T>)
    ensures r.None? <==> forall k :: 0 <= k < |xs| ==> xs[k].None?
    ensures r.Some? ==>
      exists k :: 0 <= k < |xs| && xs[k] == r && forall j :: 0 <= j < k ==> xs[j].None?
    decreases |xs|
  {
    if |xs| == 0 then None
    else if xs[0].Some? then xs[0]
    else
      var r := FirstSome(xs[1..]);
      assert forall k :: 1 <= k < |xs| ==> xs[1..][k - 1] == xs[k];
      r
  }
}
