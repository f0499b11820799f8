/** Failure-carrying values: a Java `null` becomes `None`, a thrown exception or
    a `System.exit` after an error message becomes `Failure`. */
module Wrappers {

  datatype Option<+T> = None | Some(value: T)

  datatype Result<+R, +E> = Success(value: R) | Failure(error: E)
}
