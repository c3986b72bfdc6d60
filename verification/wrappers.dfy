/** Failure-compatible result types used to model thrown errors and `null`. */
module Wrappers {

  /** A value or its absence (the source's `null`, or NaN for a number). */
  datatype Option<+T> = None | Some(value: T)

  /** A computed value, or the message of the `Error` the source throws. */
  datatype Result<+R, +E> = Success(value: R) | Failure(error: E)

  /** Normal completion of a check that returns nothing, or the message it throws. */
  datatype Outcome<+E> = Pass | Fail(error: E)
}
