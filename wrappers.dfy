/** Option and Result, the shapes the modelled code uses for "maybe null" and "throws". */
module Wrappers {

  /** A value or nothing: the model of a TypeScript value that may be `null`. */
  datatype Option<+T> = None | Some(value: T)

  /** A value or an error: the model of a call that returns normally or throws. */
  datatype Result<+T, +E> = Success(value: T) | Failure(error: E)
}
