/** src/middlewares/errorHandler.ts: the central handler. It starts from 500
    "Internal Server Error", takes the status and message of an AppError
    instead, and sends a body holding the message and nothing else. */
module ErrorHandler {
  import opened AppErrors

  const InternalErrorMessage := "Internal Server Error"

  /** The response: its status and the body `{ message }`. */
  datatype ErrorResponse = ErrorResponse(status: int, message: string)

  method HandleError(err: Error) returns (res: ErrorResponse)
    ensures err.IsAppError() ==> res == ErrorResponse(err.Status(), err.Message())
    ensures !err.IsAppError() ==> res == ErrorResponse(500, InternalErrorMessage)
    ensures res == Answer(err)
  {
    var status := 500;
    var message := InternalErrorMessage;
    if err.IsAppError() {
      status := err.Status();
      message := err.Message();
    }
    res := ErrorResponse(status, message);
  }

  /** The answer to each kind of error, as the handler produces it. */
  function Answer(err: Error): ErrorResponse {
    if err.IsAppError() then ErrorResponse(err.Status(), err.Message())
    else ErrorResponse(500, InternalErrorMessage)
  }

  /** NotFoundError keeps 404 and its message; ValidationError is 400
      "Validation Error" whatever fields it carries, so two validation errors
      with different field maps get the same response; a store error is 500
      whatever its cause. */
  lemma AnswersByKind(m: string, d1: string, f1: map<string, string>, d2: string, f2: map<string, string>, c: DbError)
    ensures Answer(NotFoundError(m)) == ErrorResponse(404, m)
    ensures Answer(ValidationError(d1, f1)) == Answer(ValidationError(d2, f2)) == ErrorResponse(400, ValidationMessage)
    ensures Answer(StoreError(c)) == ErrorResponse(500, InternalErrorMessage)
  {
  }
}
