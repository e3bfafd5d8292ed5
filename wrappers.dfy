/** Option and Result, the two failure-carrying values the model uses in place of
    Python's sentinel returns and exceptions. */
module Wrappers {

  datatype Option<+T> = None | Some(value: T)

  datatype Result<+R, +E> = Success(value: R) | Failure(error: E)
}
