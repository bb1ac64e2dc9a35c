/** Option and Result values shared by the other modules. */
module Wrappers {

  /** An optional value: a missing JSON field, a failed lookup. */
  datatype Option<+T> = None | Some(value: T)

  /** The outcome of an operation that can fail; failures carry an `E`. */
  datatype Result<+T, +E> = Ok(value: T) | Err(error: E)
}
