/** Optional values and success-or-error results, used by every module that
    models a JavaScript `undefined`, a thrown error or an HTTP error reply. */
module Wrappers {

  /** `None` stands for JavaScript's `undefined` / `null`, or an absent key. */
  datatype Option<+T> = None | Some(value: T) {
    function GetOr(default: T): T {
      match this
      case Some(v) => v
      case None => default
    }
  }

  /** `Ok` is the normal return; `Err` carries the error the source throws or sends. */
  datatype Result<+T, +E> = Ok(value: T) | Err(error: E)
}
