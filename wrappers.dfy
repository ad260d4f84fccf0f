/** Option and Result, used for Java's Optional, for the library parsers that may fail
    and for the exceptions the loader and the analyzer throw. */
module Wrappers {

  datatype Option<+T> = None | Some(value: T)

  datatype Result<+R, +E> = Success(value: R) | Failure(error: E)
}
