/** Option and Result, the two failure-carrying types the model uses for
    the Rust `Option<T>` and `Result<T, E>` it stands in for. Result is
    failure-compatible, so `:-` plays the part of Rust's `?`. */
module Wrappers {

  datatype Option<+T> = None | Some(value: T)

  datatype Result<+R, +E> = Success(value: R) | Failure(error: E) {

    predicate IsFailure() {
      Failure?
    }

    function PropagateFailure<U>(): (r: Result<U, E>)
      requires Failure?
    {
      Failure(error)
    }

    function Extract(): (v: R)
      requires Success?
    {
      value
    }
  }
}
