module Wrappers {

  datatype Option<+T> = None | Some(value: T)

  /** A byte value, 0 to 255. */
  type Byte = b: int | 0 <= b < 256

  function Min(a: nat, b: nat): nat {
    if a < b then a else b
  }
}
