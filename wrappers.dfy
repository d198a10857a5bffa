/** Shared helper datatypes used across the day modules. */
module Wrappers {

  /** Rust's `Option<T>`. */
  datatype Option<+T> = None | Some(value: T)
}
