/** Failure-carrying values: the model's stand-in for thrown errors and
    `undefined`/`null` results. */
module Results {

  datatype Option<+T> = None | Some(value: T)

  datatype Result<+T, +E> = Ok(value: T) | Err(error: E)

  /** A result that carries no value, for operations that return `void`. */
  datatype Outcome<+E> = Pass | Fail(error: E)
}
