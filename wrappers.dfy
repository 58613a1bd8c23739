/** Failure-compatible result types shared by the modules of the model. */
module Wrappers {

  /** A value that may be absent (a decoder that produced nothing). */
  datatype Option<+T> = None | Some(value: T)

  /** A computed value or the error that stopped its computation. */
  datatype Result<+T, +E> = Success(value: T) | Failure(error: E)

  /** A success that carries no value (Rust's `Result<(), E>`) or an error. */
  datatype Outcome<+E> = Pass | Fail(error: E)
}
