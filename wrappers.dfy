/** Optional values and results with an error, shared by every module. */
module Wrappers {

  /** A value that may be missing: Python's None, JavaScript's null. */
  datatype Option<T> = None | Some(value: T)

  /** The outcome of an operation that may raise instead of returning. */
  datatype Result<T, E> = Ok(value: T) | Err(error: E)
}
