/** Failure-carrying values standing in for the exceptions the service raises. */
module Results {

  datatype Option<+T> = None | Some(value: T)

  /** A value, or the text `str(e)` of the exception that replaced it. */
  datatype Result<+T> = Ok(value: T) | Err(reason: string)

  /** Pass, or the first error found. */
  datatype Outcome<+E> = Pass | Fail(error: E)
}
