/** A value that may be absent: a nullable pointer argument of the source. */
module Wrappers {
  datatype Option<T> = None | Some(value: T)
}
