/** Option and Result, as used by the storage operations. */
module Wrappers {

  datatype Option<+T> = None | Some(value: T)
  {
    function GetOr(default: T): T
    {
      match this
      case Some(v) => v
      case None => default
    }
  }

  /** `Err` carries the reason an operation was refused. */
  datatype Result<+T, +E> = Ok(value: T) | Err(error: E)
}
