/** Bytes as the numbers 0-255. */
module Bytes {
  newtype byte = x: int | 0 <= x < 256
}
