/** The final Express error handler: every error a handler passes to `next`
    ends here and becomes a `{ message }` response, unless a response has
    already been started. */
module ErrorHandler {
  import opened Common

  datatype Outcome =
    | Delegated(err: Error)                  // `return next(err)`: Express's own handler takes over
    | Responded(status: int, body: Notice)   // `res.status(statusCode).json({ message })`

  /** `err.statusCode || 500`: an absent or zero code becomes 500. */
  function StatusOf(err: Error): (r: int)
    ensures r != 0
    ensures err.statusCode.Some? && err.statusCode.value != 0 ==> r == err.statusCode.value
    ensures err.statusCode.None? || err.statusCode.value == 0 ==> r == 500
  {
    if err.statusCode.Some? && err.statusCode.value != 0 then err.statusCode.value else 500
  }

  /** `err.message || "Internal server error"`. */
  function MessageOf(err: Error): (r: string)
    ensures r != ""
    ensures err.message != "" ==> r == err.message
    ensures err.message == "" ==> r == "Internal server error"
  {
    if err.message != "" then err.message else "Internal server error"
  }

  function Handle(err: Error, headersSent: bool): (r: Outcome)
    ensures r.Delegated? <==> headersSent
    ensures r.Delegated? ==> r.err == err
    ensures r.Responded? ==> r.status != 0 && r.body.message != ""
    ensures r.Responded? && err.statusCode.Some? && err.statusCode.value != 0 ==>
              r.status == err.statusCode.value
    ensures r.Responded? && (err.statusCode.None? || err.statusCode.value == 0) ==> r.status == 500
    ensures r.Responded? && err.message != "" ==> r.body.message == err.message
    ensures r.Responded? && err.message == "" ==> r.body.message == "Internal server error"
  {
    if headersSent then Delegated(err)
    else Responded(StatusOf(err), Notice(MessageOf(err)))
  }

  /** The codes the handlers set (400, 401, 403, 404, 409) reach the client unchanged, with their message. */
  lemma HandlerCodesPassThrough(code: int, message: string)
    requires code in {400, 401, 403, 404, 409} && message != ""
    ensures Handle(Error(Some(code), message), false) == Responded(code, Notice(message))
  {
  }

  /** An error without a code, such as a library or runtime error, becomes a 500. */
  lemma UncodedBecomes500(err: Error)
    requires err.statusCode.None?
    ensures Handle(err, false).status == 500
  {
  }
}
