/** Stand-ins for Java's `null` and for a thrown exception. */
module Wrappers {

  /** A reference that may be `null`. */
  datatype Option<+T> = None | Some(value: T)

  /** A value, or the exception that was thrown instead, with its message. */
  datatype Result<+T> = Success(value: T) | Failure(error: string)
}
