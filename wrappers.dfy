/** Option and Result, used for every operation of the system that can fail
    (a thrown exception in the TypeScript SDK, an `error` return in Go). */
module Wrappers {

  datatype Option<+T> = None | Some(value: T)

  datatype Result<+T, +E> = Ok(value: T) | Err(error: E)
}
