/** Unsigned bytes. The C source stores `char`; this model reads every byte as 0..255. */
module Bytes {
  newtype byte = b: int | 0 <= b < 256

  /** The string terminator. */
  const Nul: byte := 0
}
