/** The two result types the other modules share. */
module Wrappers {

  /** A value that may be absent: an iterator at `end`, a thread id of no thread, an empty queue. */
  datatype Option<+T> = None | Some(value: T)

  /** A value, or the exception that was thrown instead. */
  datatype Result<+T> = Success(value: T) | Failure(error: string)
}
