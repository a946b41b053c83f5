/** Failure-compatible values used by every component of the model. */
module Wrappers {

  datatype Option<+T> = None | Some(value: T)

  /** What a C++ member returns together with its exception sink: a value, or the error it raised. */
  datatype Result<+T, +E> = Ok(value: T) | Err(error: E) {

    predicate IsFailure() {
      Err?
    }

    function PropagateFailure<U>(): Result<U, E>
      requires Err?
    {
      Err(error)
    }

    function Extract(): T
      requires Ok?
    {
      value
    }
  }
}
