/** Fixed-width integers and the Option/Result wrappers used across the model. */
module Common {

  /** Rust's `u8`: one byte. */
  newtype u8 = x: int | 0 <= x < 0x100

  /** Rust's `u16`. */
  newtype u16 = x: int | 0 <= x < 0x1_0000

  /** Rust's `u64`. */
  newtype u64 = x: int | 0 <= x < 0x1_0000_0000_0000_0000

  datatype Option<+T> = None | Some(value: T)

  datatype Result<+T, +E> = Ok(value: T) | Err(error: E)

  function Min(a: int, b: int): int
  {
    if a < b then a else b
  }
}
