/** Failure-compatible result types shared by every module of the model. */
module Wrappers {

  /** A value that may be absent: JavaScript's `null` / `NaN` results. */
  datatype Option<+T> = None | Some(value: T)

  /** A computation that either returns a value or throws. */
  datatype Result<+R, +E> = Ok(value: R) | Err(error: E) {

    predicate IsFailure() {
      Err?
    }

    function PropagateFailure<U>(): Result<U, E>
      requires Err?
    {
      Err(error)
    }

    function Extract(): R
      requires Ok?
    {
      value
    }
  }
}
