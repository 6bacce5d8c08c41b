/** Optional values and results with an error, as used by the authentication model. */
module Wrappers {

  /** A value that may be absent: `undefined` in TypeScript. */
  datatype Option<+T> = None | Some(value: T)

  /** The outcome of an operation that either yields a value or raises an error. */
  datatype Result<+T, +E> = Success(value: T) | Failure(error: E)
}
