/** Small shared types: optional values and the 16-bit integers of the C code. */
module Wrappers {

  datatype Option<+T> = None | Some(value: T)

  /** int16_t */
  type int16 = x: int | -32768 <= x < 32768
}
