/** Values shared by every module: optional values, and the results of
    operations that the application can abort by raising an exception. */
module Common {

  /** Python's `None` or a present value. */
  datatype Option<+T> = None | Some(value: T) {
    function GetOr(default: T): T {
      match this
      case Some(v) => v
      case None => default
    }
  }

  /** The exceptions the modelled code raises (or lets through from the
      framework), each carrying what the caller can observe of it. */
  datatype Error =
      /** `int()` refused a token: "invalid literal for int() with base 10". */
    | InvalidLiteral(token: string)
      /** `create_user` was called with an empty email (a `ValueError`). */
    | MissingEmail
      /** A keyword argument the callee needs was absent (a `TypeError`). */
    | MissingArgument(name: string)
      /** The unique constraint on the user's email was violated on save. */
    | DuplicateEmail
      /** A serializer rejected the listed input fields. */
    | Invalid(fields: set<string>)
      /** The credentials did not authenticate (code 'authorization'). */
    | AuthenticationFailed

  /** Either a value or the exception raised instead. Failure-compatible, so
      `:-` propagates an exception the way Python's `raise` does. */
  datatype Result<+T> = Ok(value: T) | Err(error: Error) {
    predicate IsFailure() {
      Err?
    }

    function PropagateFailure<U>(): Result<U>
      requires Err?
    {
      Err(error)
    }

    function Extract(): T
      requires Ok?
    {
      value
    }
  }
}
