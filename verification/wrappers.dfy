/** Option and Result, the two failure-compatible wrappers the conversions use. */
module Wrappers {

  /** Rust's `Option<T>`. */
  datatype Option<+T> = None | Some(value: T) {

    /** `Option::ok_or`: a missing value becomes the given error. */
    function ToResult<E>(error: E): Result<T, E> {
      match this
      case Some(v) => Success(v)
      case None => Failure(error)
    }

    /** `Option::map`. */
    function Map<U>(f: T -> U): Option<U> {
      match this
      case Some(v) => Some(f(v))
      case None => None
    }

    /** `Option::and_then`: two levels of optionality collapse to one. */
    function AndThen<U>(f: T -> Option<U>): Option<U> {
      match this
      case Some(v) => f(v)
      case None => None
    }
  }

  /** Rust's `Result<T, E>`, usable with `:-` like the `?` operator. */
  datatype Result<+T, +E> = Success(value: T) | Failure(error: E) {

    predicate IsFailure() {
      Failure?
    }

    function PropagateFailure<U>(): Result<U, E>
      requires Failure?
    {
      Failure(error)
    }

    function Extract(): T
      requires Success?
    {
      value
    }

    /** `Result::ok`: the error is discarded. */
    function ToOption(): Option<T> {
      match this
      case Success(v) => Some(v)
      case Failure(_) => None
    }
  }
}
