/** Failure-compatible wrappers shared by every script model. */
module Wrappers {

  /** A Python value that may be `None` (or, for a float read from a file, NaN). */
  datatype Option<+T> = None | Some(value: T) {
    predicate IsFailure() { None? }

    function PropagateFailure<U>(): Option<U>
      requires None?
    {
      None
    }

    function Extract(): T
      requires Some?
    {
      value
    }

    function GetOr(default: T): T {
      if Some? then value else default
    }
  }

  /** The outcome of a script step that may stop the process with an uncaught exception. */
  datatype Result<+R, +E> = Success(value: R) | Failure(error: E) {
    predicate IsFailure() { Failure? }

    function PropagateFailure<U>(): Result<U, E>
      requires Failure?
    {
      Failure(error)
    }

    function Extract(): R
      requires Success?
    {
      value
    }
  }

  /** `[f(x) for x in xs]` where `f` may raise: `None` as soon as one call does. */
  function AllSome<A, B>(f: A -> Option<B>, xs: seq<A>): Option<seq<B>> {
    if xs == [] then Some([])
    else
      var n := |xs| - 1;
      match (AllSome(f, xs[..n]), f(xs[n]))
      case (Some(init), Some(y)) => Some(init + [y])
      case _ => None
  }

  /** The calls all succeed iff each does, position by position. */
  lemma {:induction false} AllSomeIff<A, B>(f: A -> Option<B>, xs: seq<A>, ys: seq<B>)
    ensures AllSome(f, xs) == Some(ys) <==> |ys| == |xs| && forall k :: 0 <= k < |xs| ==> f(xs[k]) == Some(ys[k])
  {
    if xs != [] {
      var n := |xs| - 1;
      if ys != [] {
        AllSomeIff(f, xs[..n], ys[..|ys| - 1]);
        assert ys == ys[..|ys| - 1] + [ys[|ys| - 1]];
      } else if AllSome(f, xs[..n]).Some? {
        AllSomeIff(f, xs[..n], AllSome(f, xs[..n]).value);
      }
    }
  }

  /** Running steps in turn until one raises: every value, or the first error. */
  function FirstFailure<T, E>(rs: seq<Result<T, E>>): Result<seq<T>, E> {
    if rs == [] then Success([])
    else
      var init := FirstFailure(rs[..|rs| - 1]);
      if init.Failure? then init
      else match rs[|rs| - 1]
        case Failure(e) => Failure(e)
        case Success(v) => Success(init.value + [v])
  }

  /** Once a step raises, the later steps change nothing. */
  lemma {:induction false} FirstFailureSticks<T, E>(rs: seq<Result<T, E>>, k: nat)
    requires k <= |rs| && FirstFailure(rs[..k]).Failure?
    ensures FirstFailure(rs) == FirstFailure(rs[..k])
  {
    if k < |rs| {
      var n := |rs| - 1;
      assert rs[..n][..k] == rs[..k];
      FirstFailureSticks(rs[..n], k);
    } else {
      assert rs[..k] == rs;
    }
  }

  /** The error is that of the first step that raises, and every step before it succeeds. */
  lemma {:induction false} FirstFailureIsFirst<T, E>(rs: seq<Result<T, E>>)
    ensures FirstFailure(rs).Failure? <==> exists i :: 0 <= i < |rs| && rs[i].Failure?
    ensures FirstFailure(rs).Failure? ==> exists i :: (0 <= i < |rs| && rs[i] == Failure(FirstFailure(rs).error)
      && forall j :: 0 <= j < i ==> rs[j].Success?)
    ensures FirstFailure(rs).Success? ==> (|FirstFailure(rs).value| == |rs|
      && forall i :: 0 <= i < |rs| ==> rs[i] == Success(FirstFailure(rs).value[i]))
  {
    if rs != [] {
      var n := |rs| - 1;
      FirstFailureIsFirst(rs[..n]);
      assert forall i :: 0 <= i < n ==> rs[..n][i] == rs[i];
    }
  }
}
