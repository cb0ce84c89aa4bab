/** Optional values and the outcome of an operation that can be refused. */
module Results {

  /** A value that may be absent, e.g. the row of an asset that is not in the ledger. */
  datatype Option<T> = None | Some(value: T)

  /** The outcome of applying a transaction: the new state, or the reason it was refused. */
  datatype Result<T, E> = Ok(value: T) | Err(error: E)
}
