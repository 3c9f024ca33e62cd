/** Failure-carrying datatypes shared by the model: Go's `(value, error)`
    returns become a `Result`, a lookup that may miss becomes an `Option`. */
module Wrappers {

  datatype Option<+T> = None | Some(value: T)

  datatype Result<+R, +E> = Success(value: R) | Failure(error: E)
}
