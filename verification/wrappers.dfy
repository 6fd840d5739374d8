/** Option and Result values used wherever the Python code returns None or raises. */
module Wrappers {

  /** Python's None (absent value) versus a present value. */
  datatype Option<+T> = None | Some(value: T) {

    /** The present value, or `default` when absent. */
    function GetOr(default: T): T {
      match this
      case Some(v) => v
      case None => default
    }
  }

  /** Either a value, or the message of the exception the Python code raises. */
  datatype Result<+T> = Ok(value: T) | Err(message: string)
}
