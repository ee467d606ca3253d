/** Optional values and results with an error, used for empty cells and for the
    exceptions that abort a pipeline stage. */
module Wrappers {

  datatype Option<+T> = None | Some(value: T)

  datatype Result<+R, +E> = Success(value: R) | Failure(error: E)
}
