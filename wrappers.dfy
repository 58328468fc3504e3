/** Optional values and Go's `(value, error)` return pairs. */
module Wrappers {

  datatype Option<+T> = None | Some(value: T)

  /** A Go function result `(value, err)`: `err == None` stands for a nil error.
      Keeping the value beside the error lets a contract say which zero value an
      error path returns. */
  datatype Ret<+T, +E> = Ret(value: T, err: Option<E>) {
    predicate Ok() { err.None? }
  }
}
