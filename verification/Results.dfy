/** Failure-compatible results, for the source's `Result` and `Option` types. */
module Results {

  datatype Option<+T> = None | Some(value: T)

  datatype Result<+T, +E> = Ok(value: T) | Err(error: E) {
    predicate IsFailure() { Err? }

    function PropagateFailure<U>(): Result<U, E>
      requires Err?
    {
      Err(error)
    }

    function Extract(): T
      requires Ok?
    {
      value
    }
  }

  /** Outcome of code that can also stop with a Rust panic. */
  datatype Run<+T, +E> = Done(value: T) | Rejected(error: E) | Panicked
}
