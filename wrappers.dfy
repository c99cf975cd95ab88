/** The Option datatype used where Go distinguishes a nil value from an empty one. */
module Wrappers {

  datatype Option<+T> = None | Some(value: T)
}
