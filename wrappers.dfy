/** Optional values and results with an error, as the model's operations return them. */
module Wrappers {

  /** A value that may be missing (a SQL NULL, an absent row, an absent request field). */
  datatype Option<+T> = None | Some(value: T)

  /** The outcome of a store call: a value, or the error the database driver throws. */
  datatype Result<+T, +E> = Success(value: T) | Failure(error: E)
}
