/** The `Option` and `Result` datatypes shared by the other modules. */
module Wrappers {

  /** An optional value: `None` stands for an absent key or `undefined`. */
  datatype Option<+T> = None | Some(value: T) {
    function GetOr(default: T): T {
      match this
      case Some(v) => v
      case None => default
    }
  }

  /** The outcome of one call into the backend: a value or the error it failed with. */
  datatype Result<+T, +E> = Success(value: T) | Failure(error: E)
}
