/** Failure-compatible wrappers used for the values that the frontend reads as
    `undefined`/`NaN` and for the `throw new Error(...)` paths. */
module Wrappers {

  datatype Option<+T> = None | Some(value: T)

  datatype Result<+R, +E> = Ok(value: R) | Err(error: E)
}
