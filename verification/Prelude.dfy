/** The few definitions every module shares. */
module Prelude {

  datatype Option<+T> = None | Some(value: T)

  /** One octet on the wire or in a body. */
  type byte = x: int | 0 <= x < 256

  function Min(a: int, b: int): int {
    if a <= b then a else b
  }
}
