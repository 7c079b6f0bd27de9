/** Option and Result: the absent-value and error-or-value datatypes the model uses. */
module Wrappers {

  /** A value that may be absent, standing in for JavaScript's `undefined`. */
  datatype Option<+T> = None | Some(value: T)

  /** Either a value or the reason there is none. */
  datatype Result<+R, +E> = Success(value: R) | Failure(error: E)
}
