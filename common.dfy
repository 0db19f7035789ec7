/** Shared vocabulary of the chat backend model: identifiers, optional values,
    the error record that handlers hand to `next`, and the abstract HTTP response. */
module Common {

  datatype Option<T> = None | Some(value: T)

  /** Database identifiers (MongoDB ObjectIds) are abstract naturals. */
  type Id = nat

  /** An `Error` object as the handlers build it: `statusCode` is absent for
      errors thrown by libraries or by the runtime, present when a handler sets it. */
  datatype Error = Error(statusCode: Option<int>, message: string)

  /** Outcome of an internal step that may fail with an `Error`. */
  datatype Result<T> = Success(value: T) | Failure(error: Error)

  /** What a handler produces: a response it writes itself, or the error it passes to `next`. */
  datatype Response<B> = Ok(status: int, body: B) | Err(error: Error)

  /** A JSON body of the form `{ message }`. */
  datatype Notice = Notice(message: string)

  /** The error a handler builds with `new Error(message)` and `error.statusCode = code`. */
  function Fail<B>(code: int, message: string): Response<B>
  {
    Err(Error(Some(code), message))
  }

  /** JavaScript truthiness of an optional string field of a request body:
      `undefined` and `""` are falsy. */
  predicate Truthy(s: Option<string>)
  {
    s.Some? && s.value != ""
  }
}
