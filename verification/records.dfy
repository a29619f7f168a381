/** The persisted records (internal/models) and the HTTP responses the
    handlers write. Identifiers are the canonical text of a UUID; instants are
    abstract integers supplied by the caller's clock. */
module Records {
  import opened Common

  /** One row of the `drops` table, and the record echoed after an upload. */
  datatype Drop = Drop(
    id: string,
    userId: string,
    groupId: Option<string>,
    videoUrl: string,
    thumbnail: string,
    caption: string,
    createdAt: int,
    updatedAt: int,
    votes: int,
    visibility: string)

  /** The user record the handlers return; it has no password field. */
  datatype User = User(
    id: string,
    email: string,
    username: string,
    avatarUrl: string,
    bio: string,
    tier: string,
    boostsLeft: int,
    isAdmin: bool,
    createdAt: int,
    lastActive: int)

  /** One row of the `users` table: the user plus its stored password hash,
      which is NULL for rows created without a password. */
  datatype UserRow = UserRow(user: User, password: Option<string>)

  /** The JSON body of a response: `{"error": …}`, `{"message": …}`, the
      created drop, the login payload, or no body at all. */
  datatype Body =
    | Error(message: string)
    | Message(text: string)
    | Created(drop: Drop)
    | LoggedIn(text: string, user: User)
    | NoBody

  datatype Response = Response(status: int, body: Body)

  const BadRequest := 400
  const Unauthorized := 401
  const Forbidden := 403
  const NotFound := 404
  const Conflict := 409
  const ServerError := 500
  const OK := 200
  const CreatedStatus := 201
  const NoContent := 204

  function Fault(status: int, message: string): Response
  {
    Response(status, Error(message))
  }
}
