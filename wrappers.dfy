/** Optional values and results with an error, used for the failure paths
    of the expense tracker (a date that does not parse, an amount that does
    not read back). */
module Wrappers {

  datatype Option<+T> = None | Some(value: T)

  datatype Result<+R, +E> = Success(value: R) | Failure(error: E)
}
