/** Optional values and validation results shared by every module. */
module Wrappers {

  /** A value that may be missing (a TypeScript optional field or `undefined`). */
  datatype Option<+T> = None | Some(value: T) {
    function GetOr(default: T): T {
      match this
      case Some(v) => v
      case None => default
    }
  }

  /** The outcome of a form handler: the record it hands to its callback, or the reason it alerted instead. */
  datatype Result<+R, +E> = Ok(value: R) | Err(error: E)
}
