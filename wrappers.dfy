/** Failure-compatible wrappers shared by every module: a Java `null` is `None`,
    a thrown exception is `Err`. */
module Wrappers {

  datatype Option<T> = None | Some(value: T)

  datatype Result<T, E> = Ok(value: T) | Err(error: E)
}
