/** Success-or-error values: the model's stand-in for Go's `(T, error)` returns
    and for the `die` calls that abort the generator. */
module Wrappers {

  datatype Option<+T> = None | Some(value: T)

  datatype Result<+T, +E> = Success(value: T) | Failure(error: E)
}
