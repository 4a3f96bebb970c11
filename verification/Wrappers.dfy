/** The optional value that stands for the sources' `null` and `undefined`. */
module Wrappers {
  datatype Option<+T> = None | Some(value: T)
}
