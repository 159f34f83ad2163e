/** Failure-compatible Option and Result, so that the program's `?` and
    `ok_or(..)?` chains read as `:-` chains. */
module Wrappers {

  datatype Option<+T> = None | Some(value: T) {

    /** Rust's `Option::ok_or`: a missing value becomes the given error. */
    function OkOr<E>(e: E): Result<T, E>
    {
      match this
      case Some(v) => Ok(v)
      case None => Err(e)
    }
  }

  datatype Result<+T, +E> = Ok(value: T) | Err(error: E) {

    predicate IsFailure()
    {
      Err?
    }

    function PropagateFailure<U>(): Result<U, E>
      requires Err?
    {
      Err(error)
    }

    function Extract(): T
      requires Ok?
    {
      value
    }
  }
}
