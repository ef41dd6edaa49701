/** Option and Result values, used where the crawler's Go code has a nil
    pointer or an (value, error) pair. */
module Wrappers {

  datatype Option<+T> = None | Some(value: T)

  datatype Result<+R, +E> = Success(value: R) | Failure(error: E)
}
