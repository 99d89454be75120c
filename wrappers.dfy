/** The optional value used wherever the Python code has a sentinel or raises. */
module Wrappers {

  datatype Option<+T> = None | Some(value: T)
}
