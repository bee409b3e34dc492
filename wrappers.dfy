/** The optional value used wherever the source returns either a value or None. */
module Wrappers {

  datatype Option<+T> = None | Some(value: T)
}
