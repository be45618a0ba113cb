/** Octets. */
module Bytes {
  newtype Byte = x: int | 0 <= x < 256

  type ByteString = seq<Byte>
}
