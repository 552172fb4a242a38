/** Option and Result, the two wrappers the model uses for "absent" values and
    for operations that either succeed or raise an error. */
module Wrappers {

  datatype Option<+T> = None | Some(value: T)

  datatype Result<+R, +E> = Success(value: R) | Failure(error: E)
}
