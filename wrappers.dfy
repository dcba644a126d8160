/** The optional value that stands for Java's nullable references and for results that may be missing. */
module Wrappers {
  datatype Option<+T> = None | Some(value: T)
}
