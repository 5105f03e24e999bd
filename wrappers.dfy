/** Failure-carrying return values used where the source raises or returns None. */
module Wrappers {

  datatype Option<T> = None | Some(value: T)

  datatype Result<T, E> = Success(value: T) | Failure(error: E)

  /** The result of an operation that returns nothing but may fail. */
  datatype Outcome<E> = Pass | Fail(error: E)
}
