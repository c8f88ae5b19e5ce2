/** Values shared by every service: optional fields, results of a call and time constants. */
module Common {
  datatype Option<+T> = None | Some(value: T)

  /** The HTTP exception a service call ends with. */
  datatype Error = BadRequest | NotFound | Forbidden | Conflict

  datatype Result<+T> = Ok(value: T) | Err(error: Error) {
    predicate IsFailure() { Err? }

    function PropagateFailure<U>(): Result<U>
      requires Err?
    {
      Err(error)
    }

    function Extract(): T
      requires Ok?
    {
      value
    }
  }

  function Min(a: int, b: int): int { if a <= b then a else b }

  function Max(a: int, b: int): int { if a >= b then a else b }

  const MINUTE_MS: int := 60 * 1000
  const HOUR_MS: int := 60 * MINUTE_MS
}
