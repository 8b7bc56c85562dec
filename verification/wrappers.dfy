/** Option and Result: the absent values and the thrown errors of the modelled code. */
module Wrappers {

  /** A value that may be missing (JavaScript `undefined`). */
  datatype Option<+T> = None | Some(value: T)

  /** The outcome of an operation that may throw: its value, or the error's message. */
  datatype Result<+T> = Success(value: T) | Failure(error: string)
}
