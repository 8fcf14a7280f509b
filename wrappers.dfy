/** The optional value used for "a control was found" and "this browser call raised". */
module Wrappers {

  datatype Option<+T> = None | Some(value: T)
}
