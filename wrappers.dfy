/**
 * Optional values, the model of Python's `None` and JavaScript's `null`
 * results, and results that are a value or an error.
 */
module Wrappers {
  datatype Option<T> = None | Some(value: T)

  datatype Result<T, E> = Success(value: T) | Failure(error: E)
}
