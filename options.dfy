/** Optional values and failures: `undefined` results and thrown errors of the server code. */
module Options {
  /** `None` stands for JavaScript's `undefined` (or SQL `NULL`). */
  datatype Option<T> = None | Some(value: T)

  /** `Failure` stands for an exception thrown by the storage layer. */
  datatype Result<T> = Ok(value: T) | Failure(reason: string)
}
