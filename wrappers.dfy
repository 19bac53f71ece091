/** The optional value used wherever the source works with `null`. */
module Wrappers {
  datatype Option<+T> = None | Some(value: T)
}
