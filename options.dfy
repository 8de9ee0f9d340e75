/** Optional values, as Rust's `Option<T>`. */
module Options {
  datatype Option<T> = None | Some(value: T)

  /** The outcome of a call that may panic (abort the program) instead of returning. */
  datatype Outcome<T> = Panicked | Returned(value: T)
}
