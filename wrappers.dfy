/** Option and Result, used for SQL rows that may be absent and for the
    controllers' error responses. */
module Wrappers {

  datatype Option<+T> = None | Some(value: T)

  datatype Result<+R, +E> = Success(value: R) | Failure(error: E)
}
