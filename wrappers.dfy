/** Optional values and results with an error payload, shared by the other modules. */
module Wrappers {

  /** A value that may be absent (JavaScript `undefined`, `null` or a missing field). */
  datatype Option<+T> = None | Some(value: T)

  /** Either a value or an error message (a thrown `Error` in the source). */
  datatype Result<+R, +E> = Success(value: R) | Failure(error: E)
}
