/** Optional values and handler outcomes. */
module Wrappers {

  /** A value that may be absent, like a missing JSON field. */
  datatype Option<+T> = None | Some(value: T)

  /** The outcome of a handler: a result, or the error response it sends. */
  datatype Result<+R, +E> = Ok(value: R) | Err(error: E)
}
