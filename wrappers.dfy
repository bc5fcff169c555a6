/** Python's `None`-or-value and raise-or-return, as values. */
module Wrappers {

  /** A value that may be Python's `None`. */
  datatype Option<T> = None | Some(value: T)

  /** The outcome of a call that either returns a value or raises an error. */
  datatype Result<T, E> = Success(value: T) | Failure(error: E)
}
