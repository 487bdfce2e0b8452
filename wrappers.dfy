/** Failure-compatible wrappers shared by every module of the model. */
module Wrappers {

  /** An optional value: JavaScript's `undefined` / `null` versus a present value. */
  datatype Option<T> = None | Some(value: T) {

    /** The value when present, else `default` (JavaScript's `x ?? default`). */
    function GetOr(default: T): T {
      if Some? then value else default
    }
  }

  /** The outcome of a step that can fail with an error of type E. */
  datatype Result<T, E> = Success(value: T) | Failure(error: E)
}
