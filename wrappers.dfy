/** Failure-compatible wrappers used throughout the model. */
module Wrappers {

  /** An optional value, the counterpart of Rust's `Option`. */
  datatype Option<+T> = None | Some(value: T)

  /** Either a value or an error; usable with `:-`. */
  datatype Result<+T, +E> = Ok(value: T) | Err(error: E) {

    predicate IsFailure() {
      Err?
    }

    function PropagateFailure<U>(): Result<U, E>
      requires Err?
    {
      Err(error)
    }

    function Extract(): T
      requires Ok?
    {
      value
    }
  }
}
