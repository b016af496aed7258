/** The usual optional value: Java's `null` versus a present reference. */
module Wrappers {
  datatype Option<+T> = None | Some(value: T)
}
