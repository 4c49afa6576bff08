/** Result shapes shared by the models: an optional value, and a value or a raised error. */
module Wrappers {

  datatype Option<+T> = None | Some(value: T)

  /** A Python call either returns a value or raises. */
  datatype Result<+T, +E> = Ok(value: T) | Raised(error: E)
}
