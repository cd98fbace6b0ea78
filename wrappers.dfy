/** Optional values and endpoint results: a nullable value and a value-or-error. */
module Wrappers {

  /** A value that may be absent (Python's `Optional`, SQL's NULL). */
  datatype Option<+T> = None | Some(value: T)

  /** The outcome of an endpoint: a response, or the error it raises. */
  datatype Result<+T, +E> = Ok(value: T) | Err(error: E)
}
