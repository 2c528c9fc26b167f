/** Optional values and results with an error, used for the host's "maybe absent"
    inputs and for the exceptions that escape the extension's commands. */
module Wrappers {

  datatype Option<+T> = None | Some(value: T)

  datatype Result<+T, +E> = Success(value: T) | Failure(error: E)
}
