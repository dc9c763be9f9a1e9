/** Shared vocabulary of the model: optional values, results, identifiers and
    the error outcomes a request handler can produce. */
module Types {

  /** A nullable value: a document field that may hold `None`, or the
      identity carried by a request's session. */
  datatype Option<+T> = None | Some(value: T)

  /** The outcome of a request: a value, or one of the errors below. */
  datatype Result<+T, +E> = Ok(value: T) | Err(error: E)

  /** Document identifiers. The store hands out identifiers from a single
      counter shared by all three collections, standing for ObjectIds. */
  type Id = nat

  /** What a handler reports instead of a value. */
  datatype Error =
    | Unauthorized          // no identity in the session (401, or a redirect to the login page)
    | NotFound              // the addressed document does not exist, or is not the caller's
    | DuplicateEmail        // registration with an email that is already stored
    | InvalidCredentials    // login with an unknown email or a wrong password
    | ValidationError       // a required request field is absent or empty (400)
    | AIServiceError(message: string)  // the generative-text gateway failed (500)
    | InternalError         // an exception escapes the handler (500)
}
