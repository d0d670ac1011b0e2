/** The optional value that JavaScript expresses as "a value or undefined". */
module Wrappers {
  datatype Option<+T> = None | Some(value: T)
}
