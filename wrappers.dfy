/** Option and Result, used for the optional chain argument and for the
    error that transaction creation signals. */
module Wrappers {

  datatype Option<+T> = None | Some(value: T)

  datatype Result<+R, +E> = Success(value: R) | Failure(error: E)
}
