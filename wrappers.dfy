/** Option and Result, the two failure-carrying datatypes the model uses in place of
    JavaScript's null/undefined and thrown errors. */
module Wrappers {

  /** `None` stands for a JavaScript value that is null or undefined. */
  datatype Option<+T> = None | Some(value: T) {
    function GetOr(default: T): T {
      match this
      case Some(v) => v
      case None => default
    }
  }

  /** `Err` stands for an exception thrown by the source. */
  datatype Result<+T, +E> = Ok(value: T) | Err(error: E)
}
