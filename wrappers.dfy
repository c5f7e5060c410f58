/** The optional value used for the failures the Python code raises as exceptions. */
module Wrappers {

  datatype Option<+T> = None | Some(value: T)
}
