/** Optional values and results with an error, used for PHP's `null` and thrown exceptions. */
module Wrappers {

  /** An optional value: `None` stands for a PHP array key that is absent or set to `null`. */
  datatype Option<+T> = None | Some(value: T) {

    /** The value if there is one, otherwise `default` (PHP `$x ?? $default`). */
    function GetOr(default: T): T {
      match this
      case Some(v) => v
      case None => default
    }

    /** This value if there is one, otherwise `other` (PHP `$x ?? $other`). */
    function OrElse(other: Option<T>): Option<T> {
      match this
      case Some(_) => this
      case None => other
    }
  }

  /** Either a computed value or the error that aborted the computation. */
  datatype Result<+R, +E> = Success(value: R) | Failure(error: E)

  /**
   `f` applied to every element in order, stopping at the first failure: the result is
   a failure exactly when some element fails, and then carries a failing element's
   error (the first one's, by `MapAllStopsAtFirstFailure`); otherwise it holds every element's value.
   */
  function MapAll<T, U, E>(xs: seq<T>, f: T -> Result<U, E>): (r: Result<seq<U>, E>)
    ensures r.Failure? <==> exists i :: 0 <= i < |xs| && f(xs[i]).Failure?
    ensures r.Failure? ==> exists i :: 0 <= i < |xs| && f(xs[i]) == Failure(r.error)
    ensures r.Success? ==> |r.value| == |xs|
    ensures r.Success? ==> forall i :: 0 <= i < |xs| ==> f(xs[i]) == Success(r.value[i])
  {
    if |xs| == 0 then Success([])
    else
      var n := |xs| - 1;
      assert forall i :: 0 <= i < n ==> xs[..n][i] == xs[i];
      match MapAll(xs[..n], f)
      case Failure(e) => Failure(e)
      case Success(init) =>
        match f(xs[n])
        case Failure(e) => Failure(e)
        case Success(last) => Success(init + [last])
  }

  /** The error `MapAll` stops with is that of the first failing element. */
  lemma {:induction false} MapAllStopsAtFirstFailure<T, U, E>(xs: seq<T>, f: T -> Result<U, E>)
    ensures MapAll(xs, f).Failure? ==>
              exists i :: 0 <= i < |xs| && f(xs[i]) == Failure(MapAll(xs, f).error)
                          && forall k :: 0 <= k < i ==> f(xs[k]).Success?
  {
    if |xs| > 0 {
      var n := |xs| - 1;
      MapAllStopsAtFirstFailure(xs[..n], f);
      if MapAll(xs[..n], f).Failure? {
        var i :| 0 <= i < n && f(xs[..n][i]) == Failure(MapAll(xs[..n], f).error)
                 && forall k :: 0 <= k < i ==> f(xs[..n][k]).Success?;
        assert forall k :: 0 <= k < i ==> xs[..n][k] == xs[k];
        assert xs[..n][i] == xs[i];
      } else if f(xs[n]).Failure? {
        assert forall k :: 0 <= k < n ==> f(xs[k]) == f(xs[..n][k]);
      }
    }
  }

  /** One more successful element extends a successful `MapAll` by its value. */
  lemma MapAllExtend<T, U, E>(xs: seq<T>, f: T -> Result<U, E>, i: nat)
    requires i < |xs| && MapAll(xs[..i], f).Success? && f(xs[i]).Success?
    ensures MapAll(xs[..i + 1], f) == Success(MapAll(xs[..i], f).value + [f(xs[i]).value])
  {
    assert xs[..i + 1][..i] == xs[..i];
  }
}
