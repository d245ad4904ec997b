/** Optional values and results with an error, used wherever the source returns null
    or throws on an input it does not handle. */
module Wrappers {

  datatype Option<+T> = None | Some(value: T)

  datatype Result<+R, +E> = Success(value: R) | Failure(error: E)
}
