/** The optional value used wherever the source has a value that may be `undefined` or `null`. */
module Wrappers {
  datatype Option<+T> = None | Some(value: T)
}
