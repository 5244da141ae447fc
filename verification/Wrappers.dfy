/** The types and the constant shared by the other modules. */
module Wrappers {

  type Byte = b: int | 0 <= b < 256

  /** JavaScript's `Number.MAX_SAFE_INTEGER`. */
  const MAX_SAFE_INTEGER := 9007199254740991

  datatype Option<+T> = None | Some(value: T)

  /** The outcome of a computation that returns a value or throws an error. */
  datatype Result<+T, +E> = Ok(value: T) | Err(error: E)
}
