/** Optional values and the error outcome of the command-line core.
    Every failure of the core is a `ValidationError` carrying its user-facing
    message; `ValueError` is what Python's `int()` raises when the profile's
    timeout is not an integer, and it escapes the core unchanged. */
module Results {

  datatype Option<+T> = None | Some(value: T) {
    function GetOr(default: T): T {
      match this
      case Some(v) => v
      case None => default
    }
  }

  datatype Error =
    | ValidationError(message: string)
    | ValueError(message: string)

  datatype Result<+T> = Ok(value: T) | Err(error: Error)
}
