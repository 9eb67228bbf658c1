/** The optional value used for JSON members that may be absent. */
module Wrappers {

  datatype Option<+T> = None | Some(value: T)
}
