/** Optional values and results, used wherever the source passes a null pointer or can fail. */
module Wrappers {

  /** A value that may be absent; None stands for a null pointer or a missing result. */
  datatype Option<+T> = None | Some(value: T) {

    /** The value, or `default` when there is none. */
    function GetOr(default: T): T
    {
      match this
      case Some(v) => v
      case None => default
    }
  }

  /** The result of an operation that can fail with an error of type E. */
  datatype Result<+T, +E> = Ok(value: T) | Err(error: E)
}
