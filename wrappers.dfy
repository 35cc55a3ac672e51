/** Failure-carrying results used where the Kotlin code returns null or throws. */
module Wrappers {

  /** Kotlin's nullable `T?`: `None` stands for `null`. */
  datatype Option<+T> = None | Some(value: T)

  /** An operation that either yields a value or fails the way the Kotlin code does. */
  datatype Result<+T, +E> = Success(value: T) | Failure(error: E)

  /** A Kotlin `Unit` function that either returns or throws with a message. */
  datatype Outcome<+E> = Pass | Fail(error: E)
}
