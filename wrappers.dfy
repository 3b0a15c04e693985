/** The optional value used for "an object may or may not have an associated executor". */
module Wrappers {

  datatype Option<+T> = None | Some(value: T)
}
