/** Outcomes of operations that may fail. */
module Wrappers {
  datatype Option<+T> = None | Some(value: T)

  /** A value, or the reason there is none. Failure-compatible, so `:-` propagates errors. */
  datatype Result<+T, +E> = Ok(value: T) | Err(error: E) {
    predicate IsFailure() {
      Err?
    }

    function PropagateFailure<U>(): Result<U, E>
      requires Err?
    {
      Err(error)
    }

    function Extract(): T
      requires Ok?
    {
      value
    }
  }
}
