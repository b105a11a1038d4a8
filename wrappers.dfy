/** Optional values and results with an error, used where the Java code returns null or throws. */
module Wrappers {

  /** A value that may be absent: `None` stands for Java's null. */
  datatype Option<+T> = None | Some(value: T)

  /** The outcome of an operation that may throw: `Err` carries the exception's kind. */
  datatype Result<+T, +E> = Ok(value: T) | Err(error: E)
}
