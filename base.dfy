/** Small shared vocabulary: an optional value and the 8-bit unsigned integer
    used for text line heights and alphas. */
module Base {

  datatype Option<+T> = None | Some(value: T)

  /** Rust's `u8`. */
  type Byte = x: int | 0 <= x < 256

}
