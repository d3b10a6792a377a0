/** Machine integer widths and the failure-carrying datatypes shared by the model. */
module Base {

  /** Rust's `u8`. */
  newtype byte = x: int | 0 <= x < 0x100

  /** Rust's `u32`. */
  newtype uint32 = x: int | 0 <= x < 0x1_0000_0000

  /** Rust's `Option<T>`. */
  datatype Option<+T> = None | Some(value: T)

  /** Rust's `Result<T, E>`. */
  datatype Result<+T, +E> = Ok(value: T) | Err(error: E)
}
