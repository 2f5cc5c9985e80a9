/** Failure-compatible wrappers shared by every module: an optional value and a result. */
module Wrappers {

  datatype Option<+T> = None | Some(value: T)

  /** A value, or the error that a throwing Swift call would have raised. */
  datatype Result<+T, +E> = Ok(value: T) | Err(error: E) {
    predicate IsFailure() { Err? }

    function PropagateFailure<U>(): Result<U, E>
      requires Err?
    {
      Err(error)
    }

    function Extract(): T
      requires Ok?
    {
      value
    }
  }
}
