/** Option and Result, the two failure-carrying datatypes the model uses
    for JavaScript's null/undefined and for promises that resolve or reject. */
module Wrappers {

  datatype Option<+T> = None | Some(value: T)

  datatype Result<+R, +E> = Success(value: R) | Failure(error: E)
}
