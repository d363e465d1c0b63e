/** Option and Result values used for the Java code's nulls and thrown exceptions. */
module Wrappers {
  /** A value that may be absent: Java's `null`. */
  datatype Option<T> = None | Some(value: T)

  /** The outcome of an operation that may throw: `Failure` carries the exception message. */
  datatype Result<T> = Success(value: T) | Failure(error: string)

  /** The outcome of a check that returns nothing or throws. */
  datatype Outcome = Pass | Fail(error: string)
}
