/** The nullable column and optional argument of the rest of the project. */
module Wrappers {
  datatype Option<+T> = None | Some(value: T)
}
