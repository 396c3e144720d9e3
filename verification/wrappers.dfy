/** The optional value used where the Go code passes or returns a nil pointer. */
module Wrappers {

  datatype Option<+T> = None | Some(value: T)

}
