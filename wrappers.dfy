/** The optional value used for nullable pointers and handles. */
module Wrappers {

  datatype Option<+T> = None | Some(value: T)
}
