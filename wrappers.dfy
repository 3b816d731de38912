/** Optional values, results and pass/fail outcomes, in the shape the rest of the model uses. */
module Wrappers {

  /** A value that may be absent: the model of a Java reference that may be null. */
  datatype Option<T> = None | Some(value: T)

  /** The single completion of a store call that yields a value, or the cause of its failure. */
  datatype Result<T, E> = Success(value: T) | Failure(error: E)

  /** The single completion of a store call that yields no value. */
  datatype Outcome<E> = Pass | Fail(error: E)
}
