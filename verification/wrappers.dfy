/** Failure-compatible datatypes standing for std::optional and std::expected. */
module Wrappers {

  datatype Option<+T> = None | Some(value: T) {
    function GetOr(default: T): T {
      match this
      case None => default
      case Some(v) => v
    }
  }

  datatype Result<+T, +E> = Success(value: T) | Failure(error: E)

  /** The result of an operation that returns no value, std::expected<void, E>. */
  datatype Outcome<+E> = Pass | Fail(error: E)
}
