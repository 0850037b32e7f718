/** Option, Result and Outcome values used in place of JavaScript's `undefined`
    and thrown exceptions, and the first-failure fold over an ordered list of checks. */
module Wrappers {

  /** An optional value: `None` stands for an absent property (`undefined`). */
  datatype Option<+T> = None | Some(value: T) {

    /** The value, or `default` when absent. */
    function GetOr(default: T): T
    {
      match this
      case Some(v) => v
      case None => default
    }
  }

  /** A computation that either returns a value or throws an error. */
  datatype Result<+T, +E> = Success(value: T) | Failure(error: E)

  /** A computation that either completes or throws an error, and returns nothing. */
  datatype Outcome<+E> = Pass | Fail(error: E)

  /** Runs an ordered list of guard checks (`None` = passed, `Some(e)` = throws `e`)
      and reports the first one that throws. */
  function FirstFailure<E(==)>(checks: seq<Option<E>>): (r: Outcome<E>)
    ensures r.Pass? <==> forall i :: 0 <= i < |checks| ==> checks[i].None?
    ensures r.Fail? ==>
      exists i :: 0 <= i < |checks| && checks[i] == Some(r.error) &&
        forall j :: 0 <= j < i ==> checks[j].None?
  {
    if |checks| == 0 then Pass
    else if checks[0].Some? then Fail(checks[0].value)
    else
      var rest := FirstFailure(checks[1..]);
      assert forall i :: 1 <= i < |checks| ==> checks[i] == checks[1..][i - 1];
      if rest.Fail? then
        var k :| 0 <= k < |checks[1..]| && checks[1..][k] == Some(rest.error) &&
          forall j :: 0 <= j < k ==> checks[1..][j].None?;
        assert checks[k + 1] == Some(rest.error);
        rest
      else rest
  }

  /** The check at index `i` decides the outcome when every earlier check passes. */
  lemma {:induction false} FirstFailureAt<E>(checks: seq<Option<E>>, i: nat)
    requires i < |checks| && checks[i].Some?
    requires forall j :: 0 <= j < i ==> checks[j].None?
    ensures FirstFailure(checks) == Fail(checks[i].value)
  {
    if i > 0 {
      assert checks[1..][i - 1] == checks[i];
      FirstFailureAt(checks[1..], i - 1);
    }
  }
}
