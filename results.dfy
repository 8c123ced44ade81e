/** Option, Outcome and Result values that stand in for Java's null returns and exceptions. */
module Results {

  /** A possibly absent value: `None` plays the part of Java's `null`. */
  datatype Option<+T> = None | Some(value: T)

  /** The outcome of a void operation that may throw `error`. */
  datatype Outcome<+E> = Pass | Fail(error: E)

  /** A value, or the exception that was thrown instead of returning one. */
  datatype Result<+T, +E> = Success(value: T) | Failure(error: E)
}
