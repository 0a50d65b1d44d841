/** Option and Result: the shapes used for Python's missing keys, `None`
    returns and raised exceptions throughout the model. */
module Wrappers {

  datatype Option<+T> = None | Some(value: T)

  datatype Result<+R, +E> = Success(value: R) | Failure(error: E)
}
