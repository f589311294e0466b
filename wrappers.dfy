/** Small wrapper datatypes shared by the model. */
module Wrappers {

  /** A value that may be missing: JavaScript's `undefined`/`null`, or NaN for a parsed number. */
  datatype Option<+T> = None | Some(value: T) {
    function GetOr(default: T): T {
      match this
      case Some(v) => v
      case None => default
    }
  }

  /** The settled state of an awaited request: it resolved to a value, or it threw
      (a network failure, a non-OK status turned into an exception, a body that is not JSON). */
  datatype Fetch<+T> = Ok(value: T) | Threw
}
