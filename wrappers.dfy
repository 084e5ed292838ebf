/** Failure-compatible datatypes for the JavaScript exceptions and the
    `null`/`undefined` values of the modelled sources. */
module Wrappers {

  /** A value that may be absent (`null` in the sources). */
  datatype Option<+T> = None | Some(value: T)

  /** A computation that either yields a value or throws with a message. */
  datatype Result<+T> = Ok(value: T) | Err(msg: string) {
    predicate IsFailure() { Err? }

    function PropagateFailure<U>(): Result<U>
      requires Err?
    {
      Err(msg)
    }

    function Extract(): T
      requires Ok?
    {
      value
    }
  }

  /** A computation run for its effect that either completes or throws. */
  datatype Outcome = Pass | Fail(msg: string) {
    predicate IsFailure() { Fail? }

    function PropagateFailure(): Outcome
      requires Fail?
    {
      this
    }
  }
}
