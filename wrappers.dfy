/** Success-or-failure results for operations of the game that can raise an error. */
module Wrappers {

  datatype Result<T, E> = Ok(value: T) | Err(error: E)
}
