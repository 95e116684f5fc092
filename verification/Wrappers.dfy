/** A value or none, for all components. */
module Wrappers {
  datatype Option<+T> = None | Some(value: T)
}
