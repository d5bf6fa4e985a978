/** Option and Result: the error paths of the modelled Python code
    (raised exceptions) are returned as Failure values. */
module Wrappers {

  datatype Option<+T> = None | Some(value: T)

  datatype Result<+T, +E> = Success(value: T) | Failure(error: E)
}
