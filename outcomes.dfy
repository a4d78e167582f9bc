/** Failure-carrying values: Swift's optional results (`init?`) and thrown errors (`throws`). */
module Outcomes {

  /** The result of a failable initialiser (`init?`): `nil` or a value. */
  datatype Option<+T> = None | Some(value: T)

  /** The result of a throwing initialiser: the value, or the error it throws. */
  datatype Result<+T, +E> = Ok(value: T) | Err(error: E) {
    predicate IsFailure() {
      Err?
    }

    function PropagateFailure<U>(): Result<U, E>
      requires Err?
    {
      Err(error)
    }

    function Extract(): T
      requires Ok?
    {
      value
    }
  }

  /** The result of a throwing check that returns nothing (`validate`). */
  datatype Outcome<+E> = Pass | Fail(error: E)
}
