/**
 The request and response objects the controllers see, and the outcome of a
 call into the document store (whose result is an input of the model).
 */
module Http {
  import opened Js

  /** The result a store call resolves to, or the message of the error it rejects with. */
  datatype Outcome<+T> = Ok(value: T) | Failed(message: string)

  /** A JSON response: HTTP code, `status` field, optional `message` field and
      optional `data` field (absent fields are `None`). */
  datatype Response<+D> = Response(code: int, status: string, message: Option<string>, data: Option<D>)

  /** `res.status(code).json({ status: 'fail', message })`. */
  function Fail<D>(code: int, message: string): Response<D>
  {
    Response(code, "fail", Some(message), None)
  }

  /** `res.status(code).json({ status: 'success', data })`. */
  function Success<D>(code: int, data: D): Response<D>
  {
    Response(code, "success", None, Some(data))
  }

  /** An `AppError(message, statusCode)`; the class itself is not part of
      this model, only the two arguments it is given. */
  datatype AppError = AppError(message: string, statusCode: int)

  /** What a handler does with a request: answer it, or pass an error to `next`. */
  datatype Handled<+D> = Respond(response: Response<D>) | Forward(error: AppError)

  /** The message V8 gives the `TypeError` thrown by reading `prop` of `undefined`. */
  function ReadOfUndefined(prop: string): string
  {
    "Cannot read properties of undefined (reading '" + prop + "')"
  }

  /** The parts of an Express request the controllers read and update in place. */
  class Request {
    /** `req.query`: the parsed query string, every value a string. */
    var query: map<string, string>
    /** `req.params`: the route parameters. */
    var params: map<string, string>
    /** `req.body`: the parsed JSON body. */
    var body: map<string, Value>
    /** The id of `req.user`, which an authentication middleware would attach; `None` when absent. */
    var user: Option<string>
    /** `req.originalUrl`. */
    var originalUrl: string

    constructor (query: map<string, string>, params: map<string, string>, body: map<string, Value>,
                 user: Option<string>, originalUrl: string)
      ensures this.query == query && this.params == params && this.body == body
      ensures this.user == user && this.originalUrl == originalUrl
    {
      this.query := query;
      this.params := params;
      this.body := body;
      this.user := user;
      this.originalUrl := originalUrl;
    }
  }
}
