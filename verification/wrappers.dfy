/** Optional values and the outcome of an operation that may raise. */
module Wrappers {

  datatype Option<T> = None | Some(value: T)

  /** A value returned, or the exception `E` raised instead. */
  datatype Result<T, E> = Ok(value: T) | Err(error: E)
}
