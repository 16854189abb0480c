/**
 The end of the middleware chain in `app.js`: the catch-all route that turns
 any unmatched request into a 404 error, and the error handler that fills in
 a missing status code and status before answering with `{status, message}`.
 */
module App {
  import opened Js
  import opened Http

  /** An `Error` as the handlers pass it to `next`: its message, and the
      `status` and `statusCode` properties, `None` while unset. */
  class ErrorObject {
    var message: string
    var status: Option<string>
    var statusCode: Option<int>

    /** `new Error(message)`. */
    constructor (message: string)
      ensures this.message == message && status == None && statusCode == None
    {
      this.message := message;
      status := None;
      statusCode := None;
    }
  }

  function NotFoundMessage(originalUrl: string): string
  {
    "Can't find " + originalUrl + " on this server!"
  }

  /** The catch-all `app.all('*')`: a fresh error for the requested URL,
      marked `fail` with code 404, handed to `next`. */
  method CatchAll(req: Request) returns (err: ErrorObject)
    ensures fresh(err)
    ensures err.message == NotFoundMessage(req.originalUrl)
    ensures err.status == Some("fail") && err.statusCode == Some(404)
  {
    err := new ErrorObject(NotFoundMessage(req.originalUrl));
    err.status := Some("fail");
    err.statusCode := Some(404);
  }

  /** `err.statusCode || 500`: an unset or zero code becomes 500. */
  function CodeOrDefault(statusCode: Option<int>): (code: int)
    ensures code != 0
    ensures statusCode.Some? && statusCode.value != 0 ==> code == statusCode.value
    ensures statusCode.None? || statusCode.value == 0 ==> code == 500
  {
    match statusCode
    case Some(c) => if c != 0 then c else 500
    case None => 500
  }

  /** `err.status || 'error'`: an unset or empty status becomes `error`. */
  function StatusOrDefault(status: Option<string>): (s: string)
    ensures s != ""
    ensures status.Some? && status.value != "" ==> s == status.value
    ensures status.None? || status.value == "" ==> s == "error"
  {
    match status
    case Some(t) => if t != "" then t else "error"
    case None => "error"
  }

  /** The answer of the error handler for an error in a given state: its code
      as the HTTP code, and a body with exactly `status` and `message`. */
  function Envelope(statusCode: Option<int>, status: Option<string>, message: string): Response<()>
  {
    Response(CodeOrDefault(statusCode), StatusOrDefault(status), Some(message), None)
  }

  /** The error-handling middleware: completes the error in place, then answers. */
  method HandleError(err: ErrorObject) returns (resp: Response<()>)
    modifies err
    ensures err.statusCode == Some(CodeOrDefault(old(err.statusCode)))
    ensures err.status == Some(StatusOrDefault(old(err.status)))
    ensures err.message == old(err.message)
    ensures resp == Envelope(old(err.statusCode), old(err.status), err.message)
  {
    err.statusCode := Some(CodeOrDefault(err.statusCode));
    err.status := Some(StatusOrDefault(err.status));
    resp := Response(err.statusCode.value, err.status.value, Some(err.message), None);
  }

  /** An unmatched URL is answered 404 with status `fail` and a message naming it. */
  lemma NotFoundEnvelope(originalUrl: string)
    ensures Envelope(Some(404), Some("fail"), NotFoundMessage(originalUrl))
         == Response(404, "fail", Some("Can't find " + originalUrl + " on this server!"), None)
  {
  }

  /** Completing an error twice is completing it once: the handler's own
      output is left as it is. */
  lemma EnvelopeIdempotent(statusCode: Option<int>, status: Option<string>, message: string)
    ensures var r := Envelope(statusCode, status, message);
      Envelope(Some(r.code), Some(r.status), message) == r
  {
  }

  /** An error raised without a code or status reaches the client as a 500 `error`. */
  lemma BareErrorEnvelope(message: string)
    ensures Envelope(None, None, message) == Response(500, "error", Some(message), None)
  {
  }
}
