/** Nullable values and thrown-or-returned outcomes. */
module Wrappers {

  /** A Kotlin nullable value: `None` is `null`. */
  datatype Option<+T> = None | Some(value: T) {
    /** Kotlin's elvis operator `this ?: default`. */
    function GetOr(default: T): T {
      match this
      case Some(v) => v
      case None => default
    }
  }

  /** Either the value a call returns or the exception it throws. */
  datatype Result<+R, +E> = Success(value: R) | Failure(error: E)
}
