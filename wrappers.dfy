/** Failure-carrying return types shared by every module of the model. */
module Wrappers {

  /** Python's `None` next to a present value. */
  datatype Option<+T> = None | Some(value: T)

  /** A value, or the exception that the Python code would raise instead. */
  datatype Result<+T, +E> = Ok(value: T) | Err(error: E) {
    predicate IsFailure() { Err? }

    function PropagateFailure<U>(): Result<U, E>
      requires Err?
    {
      Err(error)
    }

    function Extract(): T
      requires Ok?
    {
      value
    }
  }
}
