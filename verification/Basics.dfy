/** Bytes and optional values, shared by every component. */
module Basics {

  newtype byte = x: int | 0 <= x < 256

  type Bytes = seq<byte>

  datatype Option<+T> = None | Some(value: T)

  function Zeros(n: nat): Bytes {
    seq(n, _ => 0)
  }
}
