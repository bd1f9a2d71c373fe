/** The conventional optional value, standing for Go's (value, ok) and nil-pointer results. */
module Wrappers {
  datatype Option<+T> = None | Some(value: T)
}
