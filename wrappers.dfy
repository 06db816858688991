/** Option, used for the error paths of the tick parser. */
module Wrappers {

  datatype Option<+T> = None | Some(value: T)
}
