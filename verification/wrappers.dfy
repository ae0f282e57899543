/** Failure-carrying values used throughout the caption parser. */
module Wrappers {

  /** An optional value: `None` stands for Swift's `nil`. */
  datatype Option<+T> = None | Some(value: T) {

    /** The wrapped value, or `default` for `None` (Swift's `?? default`). */
    function GetOr(default: T): T {
      match this
      case Some(v) => v
      case None => default
    }
  }

  /** Either a computed value or the error that stopped the computation. */
  datatype Result<+T, +E> = Success(value: T) | Failure(error: E)
}
