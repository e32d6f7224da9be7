/** Failure-compatible helper datatypes shared by every module of the model. */
module Wrappers {

  /** Python's `None` / a present value. */
  datatype Option<+T> = None | Some(value: T)

  /** The outcome of an operation that either produces a value or reports why it refused. */
  datatype Result<+R, +E> = Success(value: R) | Failure(error: E)
}
