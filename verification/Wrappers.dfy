/** The failure-compatible shapes the other modules share, and mapping a list by a step that may throw. */
module Wrappers {

  /** A value that may be `undefined` in the program. */
  datatype Option<+T> = None | Some(value: T) {
    function GetOr(default: T): T {
      match this
      case Some(v) => v
      case None => default
    }
  }

  /** What a call returns, or the error it throws. */
  datatype Result<+T, +E> = Ok(value: T) | Err(error: E)

  /** A list mapped by a step that may throw: every value, or the first error. */
  function Collect<T, E>(rs: seq<Result<T, E>>): (r: Result<seq<T>, E>)
    ensures r.Ok? ==> |r.value| == |rs| && forall k :: 0 <= k < |rs| ==> rs[k] == Ok(r.value[k])
  {
    if rs == [] then Ok([])
    else
      var n := |rs| - 1;
      var front := Collect(rs[..n]);
      if front.Err? then front
      else if rs[n].Err? then Err(rs[n].error)
      else Ok(front.value + [rs[n].value])
  }

  lemma {:induction false} CollectAll<T, E>(rs: seq<Result<T, E>>, vs: seq<T>)
    requires |rs| == |vs| && forall k :: 0 <= k < |rs| ==> rs[k] == Ok(vs[k])
    ensures Collect(rs) == Ok(vs)
  {
    if rs != [] {
      var n := |rs| - 1;
      CollectAll(rs[..n], vs[..n]);
      assert rs[n] == Ok(vs[n]);
      assert vs == vs[..n] + [vs[n]];
    }
  }

  lemma {:induction false} CollectFirstError<T, E>(rs: seq<Result<T, E>>, i: nat)
    requires i < |rs| && rs[i].Err? && forall k :: 0 <= k < i ==> rs[k].Ok?
    ensures Collect(rs) == Err(rs[i].error)
  {
    var n := |rs| - 1;
    if i < n {
      CollectFirstError(rs[..n], i);
    } else {
      assert forall k :: 0 <= k < n ==> rs[..n][k].Ok?;
      CollectAll(rs[..n], seq(n, k requires 0 <= k < n => rs[k].value));
    }
  }
}
