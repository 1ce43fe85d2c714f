/** Optional values and outcomes of operations that can throw. */
module Results {

  /** A value that may be absent: JavaScript's `undefined`, a missing
      directory, a number that did not parse. */
  datatype Option<+T> = None | Some(value: T)

  /** The outcome of an operation that the source abandons by throwing;
      `Err` carries a description of the exception. */
  datatype Result<+T> = Ok(value: T) | Err(message: string)
}
