/** Optional values and failure-carrying results used across the pipeline. */
module Wrappers {

  /** A value that may be absent, as a JSON key that may be missing or null. */
  datatype Option<+T> = None | Some(value: T)

  /** The outcome of an operation that may raise. */
  datatype Result<+R, +E> = Success(value: R) | Failure(error: E)
}
