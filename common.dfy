/** Values shared by every service: identifiers, optional request fields,
    and the error responses the controllers send back with their HTTP status. */
module Common {

  /** Document identifiers (the database's ObjectIds). */
  type Id = nat

  /** The identity of the authenticated requester (`req.user.id`). */
  type UserId = nat

  datatype Option<+T> = None | Some(value: T)

  /** A request field read from a JSON body or a query string: `None` is an
      absent (undefined) field. */
  predicate Truthy(field: Option<string>)
  {
    field.Some? && field.value != ""
  }

  /** The distinct error responses of the controllers. */
  datatype Error =
    | MissingFields          // "Category name and type are required"
    | InvalidCategoryType    // "Invalid category type"
    | NotFound               // "... not found"
    | NotAuthorized          // "Not authorized" (ownership mismatch)
    | UserAlreadyExists      // "User already exists"
    | InvalidCredentials     // "Invalid email or password"
    | EmailNotVerified       // "Please verify your email before logging in."
    | InvalidOrExpiredToken  // "Invalid or expired verification token"
    | ServerError            // any exception caught by a controller

  /** The HTTP status code each error is sent with. */
  function StatusCode(e: Error): (code: nat)
    ensures 400 <= code <= 500
    ensures code == 400 <==> e in {MissingFields, InvalidCategoryType, UserAlreadyExists, InvalidOrExpiredToken}
    ensures code == 401 <==> e in {NotAuthorized, InvalidCredentials, EmailNotVerified}
    ensures code == 404 <==> e == NotFound
    ensures code == 500 <==> e == ServerError
  {
    match e
    case MissingFields => 400
    case InvalidCategoryType => 400
    case UserAlreadyExists => 400
    case InvalidOrExpiredToken => 400
    case NotFound => 404
    case NotAuthorized => 401
    case InvalidCredentials => 401
    case EmailNotVerified => 401
    case ServerError => 500
  }

  datatype Result<+T> = Ok(value: T) | Err(error: Error)
}
