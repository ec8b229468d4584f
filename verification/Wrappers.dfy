/** An absent or present value, as the original's `Option`. */
module Wrappers {
  datatype Option<+T> = None | Some(value: T)
}
