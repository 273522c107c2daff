/** The optional result the stack returns when it may be empty (Rust's `Option`). */
module Wrappers {

  datatype Option<+T> = None | Some(value: T)
}
