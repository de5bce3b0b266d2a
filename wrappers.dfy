/** Option and Result: "no value" and "an exception was thrown" made explicit. */
module Wrappers {

  /** A value that may be absent; a grid cell whose Value is null is `None`. */
  datatype Option<+T> = None | Some(value: T)

  /** The outcome of an operation that the source lets throw. */
  datatype Result<+R, +E> = Success(value: R) | Failure(error: E)
}
