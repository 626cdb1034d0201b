/** Optional values and results, shared by the dashboard and registration models. */
module Wrappers {

  /** A value that may be absent (`undefined` / `null` on the source side). */
  datatype Option<+T> = None | Some(value: T)

  /** The outcome of a check: a value when it passes, an error when it fails. */
  datatype Result<+R, +E> = Success(value: R) | Failure(error: E)
}
