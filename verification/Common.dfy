/** What every component shares: optional values, bytes and the smaller of two numbers. */
module Common {

  datatype Option<+T> = None | Some(value: T)

  type Byte = x: int | 0 <= x < 0x100

  type Bytes = seq<Byte>

  function Min(a: nat, b: nat): nat {
    if a <= b then a else b
  }
}
