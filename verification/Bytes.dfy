/** Byte strings and the small result types shared by every module. */
module Bytes {

  type byte = b: nat | b < 256

  type Bytes = seq<byte>

  datatype Option<+T> = None | Some(value: T)

  datatype Result<+T, +E> = Ok(value: T) | Err(error: E)

}
