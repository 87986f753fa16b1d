/** Failure-carrying values: the promise results of the worker's handlers,
    written as ordinary return values. */
module Outcomes {

  /** A value that may be absent (a cache miss). */
  datatype Option<T> = None | Some(value: T)

  /** A promise that resolves with a value or rejects with an error. */
  datatype Result<T, E> = Success(value: T) | Failure(error: E)

  /** A promise that resolves with nothing or rejects with an error. */
  datatype Outcome<E> = Pass | Fail(error: E)
}
