/** Optional values and success-or-error results, used for the engine's
    missing request fields and its error responses. */
module Outcomes {

  datatype Option<+T> = None | Some(value: T)

  datatype Result<+T, +E> = Success(value: T) | Failure(error: E)
}
