/** The optional values and the results of operations that may raise, used across the model. */
module Wrappers {

  /** An optional value: Python's `Optional[T]`, `None` standing for the missing value. */
  datatype Option<+T> = None | Some(value: T)

  /** The outcome of an operation that may raise: a value, or the error it raised. */
  datatype Result<+T, +E> = Success(value: T) | Failure(error: E)
}
