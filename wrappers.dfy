/** The Option datatype used for the error value that ToMap returns (nil or not) and for parsers. */
module Wrappers {

  datatype Option<+T> = None | Some(value: T)
}
