/** Optional values and success-or-error outcomes: every harness operation
    that can raise a Python exception returns a `Result`. */
module Results {

  datatype Option<+T> = None | Some(value: T)

  /** `Err` names the exception raised, as a constructor of the operation's
      own error type. */
  datatype Result<+T, +E> = Ok(value: T) | Err(error: E)
}
