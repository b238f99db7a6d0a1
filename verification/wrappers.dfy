/** The optional value used wherever a C table returns a null pointer or "not found". */
module Wrappers {
  datatype Option<+T> = None | Some(value: T)
}
