/** The Option and Result types used throughout the project. */
module Wrappers {

  datatype Option<+T> = None | Some(value: T)

  /** The source's `Result`; `:-` plays the role of its `?` operator. */
  datatype Result<+T, +E> = Ok(value: T) | Err(error: E) {

    predicate IsFailure() {
      Err?
    }

    function PropagateFailure<U>(): Result<U, E>
      requires Err?
    {
      Err(error)
    }

    function Extract(): T
      requires Ok?
    {
      value
    }
  }
}
