/** The optional value used where the source invokes a callback at most once. */
module Wrappers {
  datatype Option<+T> = None | Some(value: T)
}
