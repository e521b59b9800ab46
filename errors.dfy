/**
 * Values shared by the backend handlers: the errors a handler passes to
 * `next(error)`, and the result of a handler that may fail.
 */
module Errors {

  /**
   * An error reaching the error-handling middleware. `HttpError` is what
   * `createHttpError(status, message)` builds; `UnexpectedError` is any other
   * thrown value (a failed `assertIsDefined`, a store failure), whose details
   * the middleware never shows.
   */
  datatype Error = HttpError(status: int, message: string) | UnexpectedError

  /** The outcome of a handler: a value sent on success, or the error passed on. */
  datatype Result<+T> = Ok(value: T) | Err(error: Error)

  // `createHttpError(404)` and `createHttpError(401)` without a message take
  // the standard reason phrases as their message.
  const NotFound := HttpError(404, "Not Found")
  const Unauthorized := HttpError(401, "Unauthorized")
}
