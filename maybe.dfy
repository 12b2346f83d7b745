/** Optional values and outcomes shared by the other modules. */
module Maybe {

  /** A value that may be absent: JavaScript's `undefined`/`null`/empty string. */
  datatype Option<T> = None | Some(value: T)

  /** An operation that either produces a value or reports why it refused. */
  datatype Result<T, E> = Ok(value: T) | Err(error: E)
}
