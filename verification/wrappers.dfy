/** Failure-carrying wrappers: Java `null` becomes `None`, a thrown exception
    becomes `Failure`, and a `void` call that may throw becomes an `Outcome`. */
module Wrappers {

  /** A value that may be absent (a Java reference that may be null). */
  datatype Option<+T> = None | Some(value: T)

  /** The result of a Java call that returns a value or throws. */
  datatype Result<+R, +E> = Success(value: R) | Failure(error: E)

  /** The result of a Java `void` call that completes or throws. */
  datatype Outcome<+E> = Pass | Fail(error: E)
}
