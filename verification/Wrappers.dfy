/** A value that may be absent, in place of the nil of the program. */
module Wrappers {
  datatype Option<+T> = None | Some(value: T)
}
