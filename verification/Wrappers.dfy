/** The optional value used wherever the program returns a pair of a value and a flag, or nothing. */
module Wrappers {
  datatype Option<+T> = None | Some(value: T)
}
