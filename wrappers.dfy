/** Option and Result, the failure-compatible wrappers the other modules return. */
module Wrappers {

  /** A value that may be absent; stands for Kotlin's nullable types. */
  datatype Option<+T> = None | Some(value: T)

  /** A value or the error that stopped its computation; stands for a thrown exception. */
  datatype Result<+T, +E> = Ok(value: T) | Err(error: E) {

    predicate IsFailure() {
      Err?
    }

    function PropagateFailure<U>(): Result<U, E>
      requires Err?
    {
      Err(error)
    }

    function Extract(): T
      requires Ok?
    {
      value
    }
  }
}
