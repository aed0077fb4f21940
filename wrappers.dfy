/** The optional-value type shared by the model (Rust's `Option`). */
module Wrappers {

  datatype Option<+T> = None | Some(value: T)
}
