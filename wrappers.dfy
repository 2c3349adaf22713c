/** The optional value a dictionary lookup produces. */
module Wrappers {
  datatype Option<+T> = None | Some(value: T)
}
