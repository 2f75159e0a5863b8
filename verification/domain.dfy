/** The entities of the notes store and the exceptions the core raises. */
module Domain {
  import opened Wrappers

  /** A database id (Java `Long`); auto-generated ids start at 1. */
  type Id = int

  /** A `LocalDateTime`, abstracted to a point on a time line supplied by the caller. */
  type Time = int

  /** A persisted note; `ownerId` is the id of `note.getUser()`. */
  datatype Note = Note(
    id: Id,
    ownerId: Id,
    title: string,
    description: string,
    completed: bool,
    completedAt: Option<Time>,
    createdAt: Time,
    updatedAt: Time)

  /** A persisted user; `password` holds the encoder's output, never the raw password. */
  datatype User = User(
    id: Id,
    name: string,
    email: string,
    password: string,
    createdAt: Time,
    updatedAt: Time)

  /** One failed field constraint as Bean Validation reports it. */
  datatype FieldError = FieldError(field: string, message: string)

  /** The exceptions that reach the error handler, one constructor per exception class. */
  datatype AppError =
    | ResourceNotFound(message: string)
    | UserAlreadyExists(message: string)
    | UnauthorizedAccess(message: string)
    | UsernameNotFound(message: string)
    | BadCredentials(message: string)
    | MalformedJson(message: string)
    | EmptyJson(message: string)
    | MessageNotReadable(detail: Option<string>)
    | MissingToken(message: string)
    | ArgumentNotValid(fieldErrors: seq<FieldError>)
    | Unexpected(detail: Option<string>)
}
