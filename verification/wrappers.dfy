/** Optional values and results with an error, standing in for Java's nulls and exceptions. */
module Wrappers {

  /** A value that may be absent (a nullable reference in the source). */
  datatype Option<+T> = None | Some(value: T) {

    /** The value, or `default` when absent (`x == null ? default : x`). */
    function GetOr(default: T): T {
      match this
      case Some(v) => v
      case None => default
    }
  }

  /** Either a value or the error that a thrown exception would have carried. */
  datatype Result<+T, +E> = Success(value: T) | Failure(error: E)
}
