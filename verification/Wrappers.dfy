/** The usual optional value, used for null pointers and for end of input. */
module Wrappers {
  datatype Option<+T> = None | Some(value: T)
}
