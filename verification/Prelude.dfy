/** Shared vocabulary: bytes, byte strings and optional values. */
module Prelude {
  datatype Option<+T> = None | Some(value: T)

  /** One byte, written as the character with that code. */
  type byte = c: char | c as int < 256

  type Bytes = seq<byte>
}
