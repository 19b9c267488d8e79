/** Values that may be missing, results that may be errors, and what polling gives. */
module Wrappers {
  datatype Option<+T> = None | Some(value: T)

  datatype Result<+T, +E> = Ok(value: T) | Err(error: E)

  /** What polling a future gives: not ready yet, or its value. */
  datatype Poll<+T> = Pending | Ready(value: T)
}
