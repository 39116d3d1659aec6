/** Failure-compatible wrappers shared by every module of the model. */
module Wrappers {

  /** An optional value: `None` stands for JavaScript's `undefined` (and, where
      the source treats it the same way, `null`). */
  datatype Option<+T> = None | Some(value: T) {

    /** Returns the value, or `default` when there is none. */
    function GetOr(default: T): T {
      match this
      case Some(v) => v
      case None => default
    }
  }

  /** The outcome of an operation that may raise an exception in the source. */
  datatype Result<+R, +E> = Success(value: R) | Failure(error: E)

  /** One field of a partial update: left as it is, or overwritten. */
  datatype Patch<+T> = Keep | Put(value: T) {

    /** The field's value after the update, given its value before. */
    function Apply(prior: T): T {
      match this
      case Keep => prior
      case Put(v) => v
    }
  }
}
