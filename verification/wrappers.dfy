/** Failure-carrying values used in place of Go's `(value, error)` pairs and nil pointers. */
module Wrappers {

  /** A possibly absent value; `None` plays the role of a nil pointer. */
  datatype Option<+T> = None | Some(value: T)

  /** Either a value or the error the operation returned instead. */
  datatype Result<+T, +E> = Ok(value: T) | Err(error: E)
}
