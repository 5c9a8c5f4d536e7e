/** The optional value used for the timer reference and the request body. */
module Wrappers {
  datatype Option<+T> = None | Some(value: T)
}
