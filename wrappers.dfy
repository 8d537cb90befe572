/** The optional value used where the program returns `None` on failure. */
module Wrappers {

  datatype Option<+T> = None | Some(value: T)
}
