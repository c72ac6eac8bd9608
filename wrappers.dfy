/** Option and Result, used for the places where the scanner's JavaScript yields `null`,
    throws, or rejects a promise. */
module Wrappers {

  datatype Option<+T> = None | Some(value: T)

  datatype Result<+R, +E> = Success(value: R) | Failure(error: E)
}
