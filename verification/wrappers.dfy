/** Failure-compatible wrappers: `Option` stands for a JavaScript value that may be
    `undefined`, `Result` for a call that may throw an `Error`. */
module Wrappers {

  datatype Option<+T> = None | Some(value: T) {
    predicate IsFailure() { None? }

    function PropagateFailure<U>(): Option<U>
      requires None?
    {
      None
    }

    function Extract(): T
      requires Some?
    {
      value
    }

    function GetOr(default: T): T {
      match this
      case Some(v) => v
      case None => default
    }
  }

  datatype Result<+R, +E> = Success(value: R) | Failure(error: E) {
    predicate IsFailure() { Failure? }

    function PropagateFailure<U>(): Result<U, E>
      requires Failure?
    {
      Failure(error)
    }

    function Extract(): R
      requires Success?
    {
      value
    }
  }

  /** A fold over results that stops at the first error: the values in order, or the error
      of the first result that failed. */
  function Collect<T, E>(results: seq<Result<T, E>>): Result<seq<T>, E> {
    if results == [] then Success([])
    else
      var before :- Collect(results[..|results| - 1]);
      var v :- results[|results| - 1];
      Success(before + [v])
  }

  /** The fold succeeds exactly when every result does, and then gives their values in order. */
  lemma {:induction false} CollectSuccess<T, E>(results: seq<Result<T, E>>)
    ensures Collect(results).Success? <==> forall i :: 0 <= i < |results| ==> results[i].Success?
    ensures Collect(results).Success? ==>
      && |Collect(results).value| == |results|
      && forall i :: 0 <= i < |results| ==> Collect(results).value[i] == results[i].value
  {
    if results != [] {
      var init := results[..|results| - 1];
      CollectSuccess(init);
      assert forall i :: 0 <= i < |init| ==> init[i] == results[i];
    }
  }

  /** When every result succeeds, the fold is exactly the list of their values. */
  lemma CollectValues<T, E>(results: seq<Result<T, E>>, values: seq<T>)
    requires |values| == |results|
    requires forall i :: 0 <= i < |results| ==> results[i] == Success(values[i])
    ensures Collect(results) == Success(values)
  {
    CollectSuccess(results);
    assert Collect(results).value == values;
  }

  /** When the results before `i` succeed and the one at `i` fails, the fold fails with its error. */
  lemma {:induction false} CollectFirstFailure<T, E>(results: seq<Result<T, E>>, i: nat)
    requires i < |results| && results[i].Failure?
    requires forall j :: 0 <= j < i ==> results[j].Success?
    ensures Collect(results) == Failure(results[i].error)
  {
    var init := results[..|results| - 1];
    if i == |results| - 1 {
      CollectSuccess(init);
    } else {
      CollectFirstFailure(init, i);
    }
  }

  /** A fold that fails carries the error of the first failing result. */
  lemma CollectFailure<T, E>(results: seq<Result<T, E>>)
    ensures Collect(results).Failure? ==>
      exists i :: 0 <= i < |results|
        && results[i] == Failure(Collect(results).error)
        && forall j :: 0 <= j < i ==> results[j].Success?
  {
    CollectSuccess(results);
    if Collect(results).Failure? {
      var i := FirstFailure(results);
      CollectFirstFailure(results, i);
    }
  }

  /** The position of the first failing result, or `|results|`. */
  function FirstFailure<T, E>(results: seq<Result<T, E>>): (i: nat)
    ensures i <= |results|
    ensures i < |results| ==> results[i].Failure?
    ensures forall j :: 0 <= j < i ==> results[j].Success?
  {
    if results == [] then 0
    else if results[0].Failure? then 0
    else 1 + FirstFailure(results[1..])
  }

  /** A fold whose prefix already fails fails with that prefix's error. */
  lemma {:induction false} CollectPrefixFailure<T, E>(results: seq<Result<T, E>>, k: nat)
    requires k <= |results| && Collect(results[..k]).Failure?
    ensures Collect(results) == Collect(results[..k])
    decreases |results|
  {
    if k < |results| {
      var n := |results| - 1;
      assert results[..n][..k] == results[..k];
      CollectPrefixFailure(results[..n], k);
    } else {
      assert results[..k] == results;
    }
  }

  /** Folding one more success appends its value. */
  lemma CollectStep<T, E>(results: seq<Result<T, E>>, i: nat, values: seq<T>, v: T)
    requires i < |results| && Collect(results[..i]) == Success(values) && results[i] == Success(v)
    ensures Collect(results[..i + 1]) == Success(values + [v])
  {
    assert results[..i + 1][..i] == results[..i];
  }

  /** Folding a failure after successes fails with its error. */
  lemma CollectStepFailure<T, E>(results: seq<Result<T, E>>, i: nat, values: seq<T>)
    requires i < |results| && Collect(results[..i]) == Success(values) && results[i].Failure?
    ensures Collect(results[..i + 1]) == Failure(results[i].error)
  {
    assert results[..i + 1][..i] == results[..i];
  }
}
