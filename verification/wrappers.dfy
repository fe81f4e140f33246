/** The optional value used for the library's "bool success + out-parameter" results. */
module Wrappers {

  datatype Option<+T> = None | Some(value: T)
}
