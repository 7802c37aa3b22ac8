// Shared datatypes.
module Basics {

  datatype Option<+T> = None | Some(value: T)

  datatype Result<+T, +E> = Ok(value: T) | Err(error: E)

  // One octet of a file.
  type byte = x: int | 0 <= x < 256

  // A Unicode scalar value: what one element of a decoded string is.
  type Scalar = x: int | 0 <= x < 0xD800 || 0xE000 <= x < 0x110000

  type Bytes = seq<byte>

  type Text = seq<Scalar>
}
