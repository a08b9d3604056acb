/** Failure-carrying values shared by the search and DAO modules. */
module Results {

  datatype Option<T> = None | Some(value: T)

  datatype Result<T, E> = Ok(value: T) | Err(error: E)

  /** Why a search token was rejected; the human-readable message text is not modelled. */
  datatype Reason =
    | DanglingEscape     // a backslash at the very end of the token
    | UnknownEscape      // a backslash followed by a character that may not be escaped
    | UnknownEnumValue   // an enum token that names no available value
    | NotANumber         // a numeric criterion whose transformer raised ValueError
    | RangeNotAllowed    // a ranged criterion given to a string column

  /** The two exceptions a transformer can raise: SearchError, or Python's ValueError from int(). */
  datatype Failure = SearchError(reason: Reason) | ValueError
}
