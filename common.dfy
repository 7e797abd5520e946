/** Wrappers and the error taxonomy shared by every model and controller module.

    The backend reports failures in two ways: controllers built on the
    error classes of `utils/errors` throw a typed error, and the older
    controllers answer directly with an HTTP status code.  Both become an
    `Error` value here, and a thrown SQLite constraint violation becomes a
    `ConstraintError`. */
module Common {

  datatype Option<+T> = None | Some(value: T) {
    predicate IsFailure() { None? }

    function PropagateFailure<U>(): Option<U>
      requires None?
    {
      None
    }

    function Extract(): T
      requires Some?
    {
      value
    }

    function GetOr(default: T): T {
      match this
      case Some(v) => v
      case None => default
    }
  }

  datatype Error =
    | ValidationError(message: string)
    | NotFoundError(message: string)
    | ForbiddenError(message: string)
    | AuthorizationError(message: string)
    | AuthenticationError(message: string)
    | ConflictError(message: string)
      /** a handler that answers with `res.status(status).json({error})` */
    | HttpError(status: int, message: string)
      /** SQLite refused a write (CHECK, NOT NULL or UNIQUE) and the statement threw */
    | ConstraintError(message: string)
      /** a plain `Error` thrown by a model method */
    | Failure(message: string)

  datatype Result<+T> = Ok(value: T) | Err(error: Error) {
    predicate IsFailure() { Err? }

    function PropagateFailure<U>(): Result<U>
      requires Err?
    {
      Err(error)
    }

    function Extract(): T
      requires Ok?
    {
      value
    }
  }

  /** The outcome of a guard that yields no value. */
  datatype Outcome = Pass | Fail(error: Error) {
    predicate IsFailure() { Fail? }

    function PropagateFailure<U>(): Result<U>
      requires Fail?
    {
      Err(error)
    }
  }

  /** JavaScript truthiness of an optional string: `undefined`, `null` and `""` are falsy. */
  predicate Truthy(s: Option<string>) {
    s.Some? && s.value != ""
  }
}
