/** The optional value used for Java's nullable `Integer` and `CommPortIdentifier` references. */
module Wrappers {
  datatype Option<+T> = None | Some(value: T)
}
