/** Bytes as numbers, for the formats that are read and written arithmetically. */
module ByteStrings {
  type Byte = b: int | 0 <= b < 0x100
  type Bytes = seq<Byte>

  datatype Option<T> = None | Some(value: T)
}
