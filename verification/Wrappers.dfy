/** The optional value that stands for a Go pointer, interface or map that may be nil. */
module Wrappers {

  datatype Option<+T> = None | Some(value: T)
}
