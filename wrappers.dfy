/** Option and Result, used for every lookup that can miss and every step that can fail. */
module Wrappers {

  datatype Option<+T> = None | Some(value: T)

  /** A step that yields a value or fails with an error; usable with `:-`. */
  datatype Result<+T, +E> = Ok(value: T) | Err(error: E) {

    predicate IsFailure() {
      Err?
    }

    function PropagateFailure<U>(): Result<U, E>
      requires Err?
    {
      Err(error)
    }

    function Extract(): T
      requires Ok?
    {
      value
    }
  }
}
