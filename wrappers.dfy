/** Option and Result values used for the source's `None` returns and its aborts. */
module Wrappers {

  datatype Option<+T> = None | Some(value: T)

  datatype Result<+T, +E> = Ok(value: T) | Err(error: E)

  /** The ways a request handler ends without success.  Each names the abort the
      source raises (its message, or the Python exception for a 500). */
  datatype Failure =
    | SessionExpired      // 401 'Session expired.'
    | EmptyName           // 400 'Name cannot be empty!'
    | EmptyDate           // 400 'Date cannot be empty!'
    | BadDateFormat       // 400 'Date format is wrong!'
    | DateNotFound        // 'Date does not exist!'
    | InvalidDate         // ValueError (or OverflowError for a field beyond a C int) raised by datetime(...)
    | IllegalMonth        // calendar.IllegalMonthError raised by calendar.monthrange
    | BadEventId          // ValueError raised by int(event_id)
    | BadKeyId            // a key id outside 1..2^63-1, refused by the Datastore client or server
    | NotLoggedIn         // redirect to /login (401) from the root page
    | EmptyUserName       // 400 'User name cannot be empty!'
    | EmptyPassword       // 400 'Password cannot be empty!'
    | BadCredentials      // 400 'User name or Password is not correct!'
    | UserExists          // 400 'User is already exist!'
    | MalformedIdToken    // ValueError raised by unpacking id_token.split('.')
    | NoUserId            // a session keyed under a user id of None
}
