/** The optional and result types shared by every module of the model. */
module Wrappers {

  /** A value that may be absent: a missing request field, a `findOne` that matched no row. */
  datatype Option<+T> = None | Some(value: T)

  /** The outcome of an operation that either completes with a value or raises an error. */
  datatype Result<+T, +E> = Success(value: T) | Failure(error: E)
}
