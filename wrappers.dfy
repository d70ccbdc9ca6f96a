/** Option and Result: the null/exception paths of the Java code as values. */
module Wrappers {

  /** A Java reference that may be null. */
  datatype Option<+T> = None | Some(value: T)

  /** The outcome of a step that either returns a value or throws an exception carrying a message. */
  datatype Result<+T, +E> = Success(value: T) | Failure(error: E)
}
