/**
 * The error-handling middleware: every error a handler passes on becomes one
 * JSON response `{ error: message }` with a status code.
 */
module ErrorHandler {
  import opened Errors

  /** The JSON body of an error response. */
  datatype ErrorBody = ErrorBody(error: string)

  /** The calls the middleware can make on the response and on `next`. */
  datatype ResponseCall = SetStatus(code: int) | SendJson(body: ErrorBody) | CallNext

  const DefaultStatus := 500
  const DefaultMessage := "An unknown error occured"

  /**
   * `errorHandler(error, req, res, next)`: the calls it makes, in order. An
   * HTTP error keeps its own status and message; anything else is reported as
   * 500 with the default message, hiding its details.
   */
  method HandleError(error: Error) returns (calls: seq<ResponseCall>)
    ensures error.HttpError? ==> calls == [SetStatus(error.status), SendJson(ErrorBody(error.message))]
    ensures error.UnexpectedError? ==> calls == [SetStatus(DefaultStatus), SendJson(ErrorBody(DefaultMessage))]
    ensures CallNext !in calls
    ensures forall i, j :: 0 <= i < j < |calls| && calls[i].SetStatus? ==> !calls[j].SetStatus?
  {
    var statusCode := DefaultStatus;
    var errorMessage := DefaultMessage;
    if error.HttpError? {
      statusCode := error.status;
      errorMessage := error.message;
    }
    calls := [SetStatus(statusCode), SendJson(ErrorBody(errorMessage))];
  }
}
