/** Option and Result: `null`/`undefined` and thrown errors of the TypeScript source. */
module Wrappers {

  /** `None` stands for a value that is absent (`undefined`, or `null` where the two are not told apart). */
  datatype Option<+T> = None | Some(value: T) {
    /** `x ?? default` */
    function GetOr(default: T): T {
      match this
      case Some(v) => v
      case None => default
    }
  }

  /** The outcome of a call that may throw: `Failure` carries what was thrown. */
  datatype Result<+R, +E> = Success(value: R) | Failure(error: E)
}
