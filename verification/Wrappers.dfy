/** Small types shared by the other modules. */
module Wrappers {

  datatype Option<T> = None | Some(value: T)

  /** A result, or the exception of a failed range check. */
  datatype Result<T> = Ok(value: T) | OutOfRange

  type byte = x: int | 0 <= x < 256
}
