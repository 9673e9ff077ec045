/** The optional value used where the Java code passes or returns a possibly-null reference. */
module Wrappers {
  datatype Option<T> = None | Some(value: T)
}
