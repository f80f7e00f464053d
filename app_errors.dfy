/** The error taxonomy of src/errors/: AppError (a message and a status,
    500 by default), NotFoundError (404), ValidationError (400, message
    "Validation Error") and DataValidationError (a field map, 422 by
    default), together with the errors that the store and the upload library
    raise, which are not AppErrors. Also the three shapes a handler's outcome
    takes: a reply, a call of next(err), or next() with no error. */
module AppErrors {
  import opened Common

  /** One failing path of a mongoose validation: the validator kind
      ("required", "minlength", "regexp", "enum", "user defined", ...) and
      its message. */
  datatype FieldError = FieldError(kind: string, message: string)

  /** mongoose's message for a failed `required`. */
  function RequiredError(path: string): FieldError {
    FieldError("required", "Path `" + path + "` is required.")
  }

  /** A required string path is satisfied by a non-empty string. */
  predicate PresentText(o: Option<string>) {
    o.Some? && o.value != ""
  }

  /** What a rejected store call carries. */
  datatype DbError =
    | SchemaInvalid(fields: map<string, FieldError>)  // mongoose.Error.ValidationError
    | DuplicateKey                                     // a unique index refused the write (code 11000)
    | CastFailed(path: string)                         // a query value is not castable (CastError)
    | Unavailable                                      // any other failure of the store

  datatype Error =
    | AppError(message: string, status: int)
    | NotFoundError(message: string)
      // `detail` and `fields` are the two arguments callers pass
    | ValidationError(detail: string, fields: map<string, string>)
    | DataValidationError(status: int, fields: map<string, string>)
    | StoreError(cause: DbError)
    | UploadError(code: string)                        // a MulterError such as LIMIT_FILE_SIZE
  {
    /** `err instanceof AppError`: the four classes of src/errors/. */
    predicate IsAppError() {
      !StoreError? && !UploadError?
    }

    function Status(): int
      requires IsAppError()
    {
      match this
      case AppError(_, s) => s
      case NotFoundError(_) => 404
      case ValidationError(_, _) => 400
      case DataValidationError(s, _) => s
    }

    function Message(): string
      requires IsAppError()
    {
      match this
      case AppError(m, _) => m
      case NotFoundError(m) => m
      case ValidationError(_, _) => ValidationMessage
      case DataValidationError(_, _) => ValidationMessage
    }
  }

  const ValidationMessage := "Validation Error"
  const DatabaseErrorMessage := "Database error. Please try again later."

  /** `new AppError("Database error. Please try again later.")`, status 500. */
  const DatabaseError := AppError(DatabaseErrorMessage, 500)

  datatype Result<+T> = Ok(value: T) | Err(error: Error)

  /** A route handler's outcome: a response with a status and a body, or a
      call of next(err). */
  datatype Reply<+T> = Respond(status: int, body: T) | Next(error: Error)

  /** A middleware's outcome: next() with no error, or next(err). */
  datatype Gate = Proceed | Reject(error: Error)
}
