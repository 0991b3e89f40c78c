/** Option: the model's stand-in for a pointer that may be NULL. */
module Wrappers {
  datatype Option<+T> = None | Some(value: T)
}
