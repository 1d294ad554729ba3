/** Option and Result: the two error-carrying shapes the Go code expresses
    with `(T, error)` pairs and nil errors. */
module Wrappers {

  datatype Option<+T> = None | Some(value: T)

  datatype Result<+T, +E> = Success(value: T) | Failure(error: E)
}
