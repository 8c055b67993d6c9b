/** Failure-compatible result type used wherever the Java code can throw. */
module Wrappers {

  datatype Option<+T> = None | Some(value: T)

  /** Either a value or the reason the Java code would have thrown. */
  datatype Result<+R, +E> = Success(value: R) | Failure(error: E) {

    predicate IsFailure() {
      Failure?
    }

    function PropagateFailure<U>(): Result<U, E>
      requires Failure?
    {
      Failure(error)
    }

    function Extract(): R
      requires Success?
    {
      value
    }
  }

  /** `rs[i]` is the first failure among the results. */
  predicate FirstFailure<T, E>(rs: seq<Result<T, E>>, i: nat)
    requires i < |rs|
  {
    rs[i].Failure? && forall j :: 0 <= j < i ==> rs[j].Success?
  }

  /** The values of a loop's steps in order, or the error of the first step
      that fails: the loop ends at its first exception. */
  function Collect<T, E>(rs: seq<Result<T, E>>): (r: Result<seq<T>, E>)
    ensures r.Success? <==> forall i :: 0 <= i < |rs| ==> rs[i].Success?
    ensures r.Success? ==> |r.value| == |rs|
    ensures r.Success? ==> forall i :: 0 <= i < |rs| ==> rs[i] == Success(r.value[i])
    ensures r.Failure? ==> exists i :: 0 <= i < |rs| && FirstFailure(rs, i) && rs[i] == Failure(r.error)
    ensures |rs| > 0 && rs[0].Failure? ==> r == Failure(rs[0].error)
  {
    if |rs| == 0 then Success([])
    else
      var rest := Collect(rs[1..]);
      if rs[0].Failure? then
        assert FirstFailure(rs, 0);
        Failure(rs[0].error)
      else if rest.Failure? then
        FailureOfTail(rs, rest.error);
        Failure(rest.error)
      else
        var all := [rs[0].value] + rest.value;
        assert forall i :: 1 <= i < |rs| ==> rs[i] == Success(all[i]) by {
          forall i | 1 <= i < |rs|
            ensures rs[i] == Success(all[i])
          {
            assert rs[i] == rs[1..][i - 1];
          }
        }
        Success(all)
  }

  /** The first failure of the rest is the first failure of all when the
      first result succeeds. */
  lemma FailureOfTail<T, E>(rs: seq<Result<T, E>>, e: E)
    requires 0 < |rs| && rs[0].Success?
    requires exists k :: 0 <= k < |rs[1..]| && FirstFailure(rs[1..], k) && rs[1..][k] == Failure(e)
    ensures exists i :: 0 <= i < |rs| && FirstFailure(rs, i) && rs[i] == Failure(e)
  {
    var k :| 0 <= k < |rs[1..]| && FirstFailure(rs[1..], k) && rs[1..][k] == Failure(e);
    FirstFailureTail(rs, k);
  }

  lemma FirstFailureTail<T, E>(rs: seq<Result<T, E>>, k: nat)
    requires 0 < |rs| && k < |rs| - 1
    requires rs[0].Success? && FirstFailure(rs[1..], k)
    ensures FirstFailure(rs, k + 1)
  {
    forall j | 1 <= j < k + 1
      ensures rs[j].Success?
    {
      assert rs[j] == rs[1..][j - 1];
    }
    assert rs[k + 1] == rs[1..][k];
  }

  /** Two successes, then a failure: the first failure is at 2. */
  lemma FirstFailureAfterTwo<T, E>(rs: seq<Result<T, E>>)
    requires |rs| > 2 && rs[0].Success? && rs[1].Success? && rs[2].Failure?
    ensures FirstFailure(rs, 2)
  {
  }

  /** The steps fail first at `i`: the whole fails with that step's error. */
  lemma CollectAtFirstFailure<T, E>(rs: seq<Result<T, E>>, i: nat)
    requires i < |rs| && FirstFailure(rs, i)
    ensures Collect(rs) == Failure(rs[i].error)
  {
    var r := Collect(rs);
    var j :| 0 <= j < |rs| && FirstFailure(rs, j) && rs[j] == Failure(r.error);
    assert j == i;
  }

  /** The exceptions of the Java library calls the drivers make. */
  datatype JavaError =
    | IndexOutOfBounds      // array access past the end of a `split` result
    | NumberFormat          // `Integer.parseInt` on a malformed field
    | NoSuchFile            // `Files.lines` on a path that was never written
    | NoSuchElement         // `getAsDouble` on the average of no values
}
