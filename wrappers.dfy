/** An optional value (JavaScript's `undefined` versus a present value), and the outcome of an
    operation that can throw. */
module Wrappers {
  datatype Option<T> = None | Some(value: T)

  datatype Result<T> = Success(value: T) | Failure(error: string)
}
