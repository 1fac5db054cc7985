/** Failure-carrying values: the model's stand-in for `undefined`, thrown errors and
    calls into collaborators that may fail. */
module Wrappers {

  datatype Option<+T> = None | Some(value: T) {
    function GetOr(default: T): T {
      match this
      case Some(v) => v
      case None => default
    }
  }

  /** A computation that either produced a value or threw an error carrying a message. */
  datatype Result<+R, +E> = Ok(value: R) | Err(error: E)

  /** A computation without a value that either completed or threw. */
  datatype Outcome<+E> = Pass | Fail(error: E)

  /** JavaScript truthiness of an optional string: `undefined` and `""` are falsy. */
  predicate Truthy(s: Option<string>) {
    s.Some? && s.value != ""
  }
}
