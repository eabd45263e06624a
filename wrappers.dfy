/** The optional value used where the Python code returns None or looks up a missing key. */
module Wrappers {

  datatype Option<+T> = None | Some(value: T)
}
