/** Optional values and results shared by the model. */
module Wrappers {

  /** An optional value: a parameter that may be absent, or a lookup that may miss. */
  datatype Option<+T> = None | Some(value: T)

  /** Either a value or the error that prevented computing it. */
  datatype Result<+R, +E> = Success(value: R) | Failure(error: E)
}
