// Failure-carrying results, and a fact about sets, shared by the components.
module Wrappers {

  datatype Option<+T> = None | Some(value: T)

  // Models a value returned or an exception raised.
  datatype Result<+T, +E> = Ok(value: T) | Err(error: E) {
    predicate IsFailure() {
      Err?
    }

    function PropagateFailure<U>(): Result<U, E>
      requires Err?
    {
      Err(error)
    }

    function Extract(): T
      requires Ok?
    {
      value
    }
  }

  lemma SubsetIsSmaller<T>(small: set<T>, big: set<T>)
    requires small <= big
    ensures |small| <= |big|
  {
    assert big == small + (big - small);
  }
}
