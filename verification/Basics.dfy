/** Types shared by the other modules. */
module Basics {
  type byte = n: int | 0 <= n < 256

  datatype Option<+T> = None | Some(value: T)
}
