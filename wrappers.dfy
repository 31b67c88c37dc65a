/** Rust's `Option`, used for "no hit" and "absorbed". */
module Wrappers {
  datatype Option<+T> = None | Some(value: T)
}
