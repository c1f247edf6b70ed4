/**
 * An optional value. Throughout the model `None` stands for a constraint
 * system that the given witness does not satisfy (by default the witness
 * the code's own witness functions write), or for a Rust call that
 * panics, and `Some(v)` for the value the output targets take.
 */
module Wrappers {
  datatype Option<+T> = None | Some(value: T)
}
