/** Optional values and success-or-error results, used in place of Java's
    null references and exceptions. */
module Results {

  datatype Option<+T> = None | Some(value: T)

  /** The outcome of an operation that the Java code may abort by throwing. */
  datatype Result<+T, +E> = Success(value: T) | Failure(error: E)
}
