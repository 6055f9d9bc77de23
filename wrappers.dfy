/** Optional values and results with an error, shared by every module below. */
module Wrappers {

  /** A value that may be absent: a nullable column, an optional request field. */
  datatype Option<+T> = None | Some(value: T) {
    function GetOr(default: T): T {
      match this
      case Some(v) => v
      case None => default
    }
  }

  /** The outcome of a handler or of a schema: a value, or the error it reports. */
  datatype Result<+T, +E> = Success(value: T) | Failure(error: E)
}
