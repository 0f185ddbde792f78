/** The optional value used for the converter's "found or not" results. */
module Wrappers {

  datatype Option<+T> = None | Some(value: T)
}
