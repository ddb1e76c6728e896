/** A value that may be absent: Java's nullable references (a property with no value). */
module Wrappers {

  datatype Option<+T> = None | Some(value: T)
}
