/** Option and Result, the two failure-carrying types the model uses for Swift's
    optionals and for `Result<Success, Failure>`. */
module Wrappers {

  datatype Option<+T> = None | Some(value: T)

  datatype Result<+R, +E> = Success(value: R) | Failure(error: E)

}
