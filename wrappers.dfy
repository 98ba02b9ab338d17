/** Option and Result: Kotlin's nullable values and the exceptions of the
    analysis pipeline, expressed as data. */
module Wrappers {

  /** A Kotlin `T?`: `None` stands for `null`. */
  datatype Option<+T> = None | Some(value: T) {
    /** Kotlin's elvis operator `this ?: default`. */
    function GetOr(default: T): T {
      match this
      case Some(v) => v
      case None => default
    }
  }

  /** The outcome of a call that may throw: `Failure` carries the message. */
  datatype Result<+R, +E> = Success(value: R) | Failure(error: E)
}
