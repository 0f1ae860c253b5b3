/** The Some/None datatype that stands for Java's Optional and for a value that may be null. */
module Wrappers {

  datatype Option<+T> = None | Some(value: T)
}
