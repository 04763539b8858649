/** Option and Result, the two failure-carrying datatypes the model uses
    for optional values and for operations that raise an exception. */
module Wrappers {

  datatype Option<+T> = None | Some(value: T)

  datatype Result<+T, +E> = Success(value: T) | Failure(error: E)
}
