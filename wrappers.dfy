/** Option and Result: the absent value and the raised exception of the source, as values. */
module Wrappers {

  datatype Option<+T> = None | Some(value: T)

  /** The outcome of an operation that, in the source, either returns or raises. */
  datatype Result<+T, +E> = Success(value: T) | Failure(error: E)
}
