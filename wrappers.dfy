/** The optional value that stands for a nullable reference or a nullable timestamp. */
module Wrappers {

  datatype Option<+T> = None | Some(value: T)
}
