/** Failure-carrying results and integer bounds shared by the modules of the model. */
module Wrappers {

  datatype Option<+T> = None | Some(value: T)

  /** A Go `(value, error)` pair: the error text itself is not modelled. */
  datatype Result<+T> = Ok(value: T) | Err

  const INT64_MIN := -0x8000_0000_0000_0000
  const INT64_MAX := 0x7FFF_FFFF_FFFF_FFFF
}
