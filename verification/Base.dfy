// Shared vocabulary: optional values, failures and bytes.
module Base {
  datatype Option<+T> = None | Some(value: T)

  datatype Result<+T, +E> = Ok(value: T) | Err(error: E)

  newtype Byte = x: int | 0 <= x < 256

  type Blob = seq<Byte>
}
