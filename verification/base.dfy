/** The optional value used wherever the server may find nothing (a missing
    JSON key, an unparsable id, a row that is not in a table), and the result
    of a step that may raise. */
module Base {

  datatype Option<+T> = None | Some(value: T)
  {
    function GetOr(default: T): T
    {
      match this
      case Some(v) => v
      case None => default
    }
  }

  /** A value, or the error a handler catches and reports. */
  datatype Result<+T, +E> = Ok(value: T) | Err(error: E)

  function Min(a: int, b: int): int
  {
    if a <= b then a else b
  }
}
