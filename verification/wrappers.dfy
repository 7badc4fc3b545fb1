/** Option and Result types used by the host/port model. */
module Wrappers {

  /** An optional value; `None` plays the role of a null pointer or an absent output. */
  datatype Option<+T> = None | Some(value: T)

  /** Either a value or an error describing why there is none. */
  datatype Result<+R, +E> = Success(value: R) | Failure(error: E)
}
