/** Option and Result, used for nullable columns, lookups that can miss and operations that can be refused. */
module Wrappers {

  datatype Option<+T> = None | Some(value: T)

  datatype Result<+R, +E> = Success(value: R) | Failure(error: E)
}
