/** Optional values and results shared by the components. */
module Wrappers {

  datatype Option<+T> = None | Some(value: T)

  datatype Result<+T, +E> = Success(value: T) | Failure(error: E)

  /** How an operation of the source fails: a raised error, a failed assertion, a short read. */
  datatype Error = ValueError | AssertionError | ReadError
}
