/** Option and Result datatypes, used where the source either has no value
    (an XML element without text) or raises. */
module Wrappers {

  datatype Option<+T> = None | Some(value: T)

  datatype Result<+T, +E> = Success(value: T) | Failure(error: E)
}
