/** Failure-compatible wrappers and small numeric helpers shared by every module. */
module Common {

  /** Python's `None` or a present value. */
  datatype Option<+T> = None | Some(value: T) {
    function GetOr(default: T): T {
      match this
      case Some(v) => v
      case None => default
    }
  }

  /** The outcome of an operation that may raise: a value, or the kind of exception raised. */
  datatype Result<+R, +E> = Success(value: R) | Failure(error: E)

  /** Python's `abs` on real-valued intensities and wavelengths. */
  function Abs(x: real): (r: real)
    ensures r >= 0.0
    ensures r == x || r == -x
  {
    if x < 0.0 then -x else x
  }

  /** The outputs of `f` for each element of `s`, concatenated in order (a loop that appends). */
  function FlatMap<T, U>(f: T -> seq<U>, s: seq<T>): (r: seq<U>)
    ensures s == [] ==> r == []
  {
    if s == [] then [] else FlatMap(f, s[..|s| - 1]) + f(s[|s| - 1])
  }

  lemma FlatMapSingle<T, U>(f: T -> seq<U>, x: T)
    ensures FlatMap(f, [x]) == f(x)
  {
    assert [x][..0] == [];
  }

  /** Processing two runs of elements one after the other is processing their concatenation. */
  lemma {:induction false} FlatMapAppend<T, U>(f: T -> seq<U>, a: seq<T>, b: seq<T>)
    ensures FlatMap(f, a + b) == FlatMap(f, a) + FlatMap(f, b)
  {
    if b == [] {
      assert a + b == a;
    } else {
      var init := b[..|b| - 1];
      FlatMapAppend(f, a, init);
      var ab := a + b;
      assert ab[..|ab| - 1] == a + init;
      assert ab[|ab| - 1] == b[|b| - 1];
    }
  }

  /** `f` applied to each element in order, or `None` as soon as one application gives `None`. */
  function MapAll<T, U>(f: T -> Option<U>, s: seq<T>): (r: Option<seq<U>>)
    ensures r.Some? <==> forall i :: 0 <= i < |s| ==> f(s[i]).Some?
    ensures r.Some? ==> |r.value| == |s| && forall i :: 0 <= i < |s| ==> f(s[i]) == Some(r.value[i])
  {
    if s == [] then Some([])
    else
      var init := s[..|s| - 1];
      assert forall i :: 0 <= i < |init| ==> init[i] == s[i];
      match (MapAll(f, init), f(s[|s| - 1]))
      case (Some(done), Some(x)) => Some(done + [x])
      case _ => None
  }
}
