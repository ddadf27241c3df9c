/** The small wrapper type shared by the other modules. */
module Wrappers {

  /** Rust's `Option`: `None` or `Some(value)`. */
  datatype Option<+T> = None | Some(value: T)
}
