/** Values that may be missing: C's null pointers and failed look-ups. */
module Wrappers {
  datatype Option<+T> = None | Some(value: T)
}
