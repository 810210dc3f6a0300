/** The last two middlewares: the handler that turns a thrown error into a
    JSON answer, and the answer for a route nobody serves. */
module ErrorHandler {
  import opened Wrappers

  /** The fields of a thrown error the handler reads. code "" is an error
      without a code, statusCode 0 one without a status; detail is
      PostgreSQL's detail text when there is one. */
  datatype Err = Err(code: string, name: string, statusCode: int, message: string, detail: Option<string>)

  /** The JSON body: an error text and, for some errors, a details field. */
  datatype ErrorReply = ErrorReply(status: int, error: string, details: Option<string>)

  /** The PostgreSQL error codes the handler recognises: unique, foreign key
      and not-null violations, and an invalid text representation. */
  predicate KnownCode(code: string) {
    code in {"23505", "23503", "23502", "22P02"}
  }

  function HandleError(e: Err): (r: ErrorReply)
    ensures e.code == "23505" ==> r == ErrorReply(409, "Duplicate entry", e.detail)
    ensures e.code == "23503" ==> r == ErrorReply(400, "Referenced resource does not exist", e.detail)
    ensures e.code == "23502" ==> r == ErrorReply(400, "Required field missing", e.detail)
    ensures e.code == "22P02" ==> r == ErrorReply(400, "Invalid data format", Some(e.message))
    ensures !KnownCode(e.code) && e.name == "ValidationError" ==> r == ErrorReply(400, "Validation failed", Some(e.message))
    ensures !KnownCode(e.code) && e.name != "ValidationError" ==>
      && r.details.None?
      && r.status == (if e.statusCode != 0 then e.statusCode else 500)
      && r.error == (if e.message != "" then e.message else "Internal server error")
  {
    if e.code == "23505" then ErrorReply(409, "Duplicate entry", e.detail)
    else if e.code == "23503" then ErrorReply(400, "Referenced resource does not exist", e.detail)
    else if e.code == "23502" then ErrorReply(400, "Required field missing", e.detail)
    else if e.code == "22P02" then ErrorReply(400, "Invalid data format", Some(e.message))
    else if e.name == "ValidationError" then ErrorReply(400, "Validation failed", Some(e.message))
    else ErrorReply(if e.statusCode != 0 then e.statusCode else 500,
                    if e.message != "" then e.message else "Internal server error", None)
  }

  /** A recognised database code decides the answer whatever the error's
      name and status say. */
  lemma KnownCodeDecides(e: Err, name: string, statusCode: int)
    requires KnownCode(e.code)
    ensures HandleError(e.(name := name, statusCode := statusCode)) == HandleError(e)
    ensures HandleError(e).status == 400 || HandleError(e).status == 409
  {
  }

  /** An unrecognised code is ignored: the answer is the one for the same
      error without a code. */
  lemma UnknownCodeIgnored(e: Err)
    requires !KnownCode(e.code)
    ensures HandleError(e) == HandleError(e.(code := ""))
  {
  }

  /** A plain error (no code, no name the handler knows, no status) is a 500
      carrying its own message, or the generic text when it has none. */
  lemma PlainErrorIsInternal(message: string)
    ensures HandleError(Err("", "Error", 0, message, None)).status == 500
    ensures message != "" ==> HandleError(Err("", "Error", 0, message, None)).error == message
    ensures message == "" ==> HandleError(Err("", "Error", 0, message, None)).error == "Internal server error"
  {
  }

  /** The TypeError a validator throws on trim of a non-string reaches the
      client as a 500 with the engine's message. */
  lemma TrimTypeErrorIsInternal()
    ensures HandleError(Err("", "TypeError", 0, "title.trim is not a function", None))
      == ErrorReply(500, "title.trim is not a function", None)
  {
  }

  datatype NotFoundReply = NotFoundReply(status: int, error: string, path: string, verb: string)

  /** The fallback for a request no route matched: 404, echoing the request path and HTTP method. */
  function NotFoundHandler(path: string, verb: string): (r: NotFoundReply)
    ensures r.status == 404 && r.error == "Route not found"
    ensures r.path == path && r.verb == verb
  {
    NotFoundReply(404, "Route not found", path, verb)
  }
}
