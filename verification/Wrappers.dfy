/** A value or none, for handles and results that may be refused. */
module Wrappers {
  datatype Option<+T> = None | Some(value: T)
}
