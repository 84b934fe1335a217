/** Failure-carrying values shared by the rest of the model.

    The original program reports failure by throwing; here a throw becomes an
    `Err` value naming what went wrong.
 */
module Outcomes {

  /** A value that may be absent (JavaScript's `undefined`). */
  datatype Option<+T> = None | Some(value: T)

  /** Why an operation threw. */
  datatype Failure =
      /** `Array.prototype.reduce` on an empty array with no initial value. */
    | EmptyReduce
      /** A property read or method call on `undefined`. */
    | UndefinedValue

  /** The outcome of an operation that may throw. */
  datatype Result<+T> = Ok(value: T) | Err(error: Failure)
}
