/** Option and Result values used across the model (JavaScript `null`/`undefined`
    and thrown exceptions / rejected calls are modelled with these). */
module Wrappers {
  datatype Option<T> = None | Some(value: T)
  {
    function GetOr(default: T): T
    {
      match this
      case None => default
      case Some(v) => v
    }
  }

  datatype Result<T, E> = Ok(value: T) | Err(error: E)
}
