/** Option and Result values, used where the modelled code returns `null`
    or reports a failure to the user instead of producing a value. */
module Wrappers {
  datatype Option<+T> = None | Some(value: T)

  datatype Result<+R, +E> = Success(value: R) | Failure(error: E)
}
