/** Bytes and byte strings. */
module ByteStrings {
  newtype Byte = b: int | 0 <= b < 0x100

  type Bytes = seq<Byte>
}
