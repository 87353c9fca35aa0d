/** The outcome of an operation that can raise: a value or the error it raised. */
module Wrappers {
  datatype Result<T, E> = Ok(value: T) | Err(error: E)
}
