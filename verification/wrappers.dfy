/** Option and Result wrappers used for the nil values and error returns of the modelled code. */
module Wrappers {

  /** A Go value that may be nil (a nil pointer, slice or map), or an absent map entry. */
  datatype Option<+T> = None | Some(value: T)

  /** A Go `(value, error)` pair: exactly one of the two is meaningful. */
  datatype Result<+T> = Ok(value: T) | Err(error: string)
}
