/** Rust's Option, for the optional fields and results of the model. */
module Wrappers {
  datatype Option<+T> = None | Some(value: T)
}
