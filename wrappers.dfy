/** The optional value used for nullable store columns and for parse results. */
module Wrappers {

  datatype Option<+T> = None | Some(value: T)
}
