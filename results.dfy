/** Failure-carrying values shared by every model in this project. */
module Results {

  datatype Option<+T> = None | Some(value: T)

  /** A computation that either yields a value or stops with an error
      (the source's `exit(1)`, `bailout` or an uncaught exception). */
  datatype Result<+T, +E> = Ok(value: T) | Err(error: E) {
    predicate IsFailure() { Err? }

    function PropagateFailure<U>(): Result<U, E>
      requires Err?
    {
      Err(error)
    }

    function Extract(): T
      requires Ok?
    {
      value
    }
  }

  /** A check that either passes or stops with an error. */
  datatype Outcome<+E> = Pass | Fail(error: E)
}
