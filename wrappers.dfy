/** The optional value used for absent configuration keys and failed parses. */
module Wrappers {
  datatype Option<+T> = None | Some(value: T)
}
