/** Small shared vocabulary: optional values, the two ways a script can stop
    early, and a result type carrying one of them. */
module Base {

  /** A value that may be absent; used for "the command a stage issues, if any". */
  datatype Option<+T> = None | Some(value: T)

  /** How a script terminates early.
      Exit models `exit(message)`, which raises SystemExit;
      AssertionFailed models a failing `assert cond, message`. */
  datatype Error = Exit(message: string) | AssertionFailed(message: string)

  /** Either the value an operation returns or the reason the script stopped. */
  datatype Result<+T> = Ok(value: T) | Fail(error: Error)

  function Min(a: int, b: int): int
  {
    if a <= b then a else b
  }
}
