/** Texts as sequences of bytes. */
module Bytes {
  type Byte = b: int | 0 <= b < 256

  /** Texts have this many readable zero bytes behind their end. */
  const PADDED_STRING_PADDING := 16
}
