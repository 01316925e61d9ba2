/** Optional values and results with an error message, shared by every module. */
module Wrappers {

  /** A value that may be absent (`undefined` or `null` on the TypeScript side). */
  datatype Option<+T> = None | Some(value: T) {

    /** The value if present, otherwise `default` (a default parameter value). */
    function GetOr(default: T): (r: T)
      ensures Some? ==> r == value
      ensures None? ==> r == default
    {
      match this
      case Some(v) => v
      case None => default
    }
  }

  /** Either a resolved value or the message of a thrown `Error`. */
  datatype Result<+T, +E> = Ok(value: T) | Err(error: E)
}
