/** Option and Result, the two wrappers the rest of the model uses for
    JavaScript's `undefined` and for thrown errors. */
module Wrappers {

  datatype Option<+T> = None | Some(value: T) {
    function GetOr(default: T): T {
      match this
      case Some(v) => v
      case None => default
    }
  }

  /** The outcome of an async operation: the value it resolves with, or the
      error it rejects with. */
  datatype Result<+T, +E> = Success(value: T) | Failure(error: E)
}
