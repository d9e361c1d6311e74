/** Option and Result, used for the JavaScript values that may be absent and
    for the exceptions the pipeline throws. */
module Wrappers {

  datatype Option<+T> = None | Some(value: T)

  datatype Result<+R, +E> = Success(value: R) | Failure(error: E)
}
