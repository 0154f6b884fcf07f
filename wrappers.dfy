/** Failure-compatible wrappers used in place of Java's null and exceptions. */
module Wrappers {

  /** A value that may be missing: Java's nullable reference. */
  datatype Option<+T> = None | Some(value: T)

  /** Either a result or the exception that replaced it. */
  datatype Result<+R, +E> = Success(value: R) | Failure(error: E)
}
