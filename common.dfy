/** Option and Result values shared by the client and the server models. */
module Common {

  /** A value that may be absent: JavaScript's `null`, Python's `None`. */
  datatype Option<+T> = None | Some(value: T)

  /** The outcome of an operation that can fail with an error value. */
  datatype Result<+T, +E> = Ok(value: T) | Err(error: E)

  /** A check's `status` column: the server writes only "UP" or "DOWN". */
  datatype Status = Up | Down

  function Min(a: int, b: int): int { if a <= b then a else b }

  function Max(a: int, b: int): int { if a <= b then b else a }
}
