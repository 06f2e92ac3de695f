/** Rust's `Option` and `Result`, and a marker for the runs that end in a panic. */
module Wrappers {

  datatype Option<+T> = None | Some(value: T)

  datatype Result<+T, +E> = Ok(value: T) | Err(error: E)

  /** What a call does: it either returns a value or the program panics
      (an index out of range, a failed `unwrap`). */
  datatype Outcome<+T> = Returned(value: T) | Panicked
}
