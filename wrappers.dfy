/** Option and Result, for the error returns and "nothing happened" outcomes of the server. */
module Wrappers {

  datatype Option<+T> = None | Some(value: T)

  datatype Result<+R, +E> = Success(value: R) | Failure(error: E)
}
