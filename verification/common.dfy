/**
  Small failure-compatible wrappers shared by every module of the model.
  Go's `(T, error)` pairs become `Result`, and a bare Go `error` (nil or not)
  becomes `Option` of the error type.
 */
module Common {

  datatype Option<+T> = None | Some(value: T)
  {
    /** The held value, or `fallback` when there is none. */
    function GetOr(fallback: T): T
    {
      if Some? then value else fallback
    }
  }

  datatype Result<+T, +E> = Ok(value: T) | Err(error: E)
}
