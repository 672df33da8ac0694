/** Failure-compatible result types and the byte type shared by the model. */
module Wrappers {

  datatype Option<+T> = None | Some(value: T)

  datatype Result<+T, +E> = Success(value: T) | Failure(error: E)

  /** An octet, as held by a JavaScript Uint8Array or a Node Buffer. */
  type byte = b: int | 0 <= b < 256
}
