/** A value that may be absent. */
module Wrappers {
  datatype Maybe<+T> = None | Some(value: T)
}
