/** What the whole model shares: a Python `None`, a Python exception, and bytes. */
module Wrappers {
  datatype Option<+T> = None | Some(value: T)

  datatype Result<+T, +E> = Ok(value: T) | Err(error: E)

  type Byte = n: nat | n < 256

  type Bytes = seq<Byte>
}
