/** Byte strings, as Python's `bytes` holds them. */
module Bytes {

  /** One element of a `bytes` value. */
  type byte = b: int | 0 <= b < 256
}
