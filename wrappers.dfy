/** Rust's `Option`, used for the optional layers, selections and lookups. */
module Wrappers {
  datatype Option<+T> = None | Some(value: T)
}
