/** The optional value shared by the model's modules. */
module Wrappers {

  /** A value that may be absent: the model's stand-in for a nullable pointer. */
  datatype Option<+T> = None | Some(value: T)
}
