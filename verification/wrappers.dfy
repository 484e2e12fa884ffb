/** Option and Result: the model's stand-ins for Rust's Option, Result and for
    the panics (`unwrap` on None, out-of-range slices) the source can hit. */
module Wrappers {

  datatype Option<+T> = None | Some(value: T)

  datatype Result<+R, +E> = Success(value: R) | Failure(error: E)
}
