/** The business rules of `UserService`: registration, lookup, update and deletion of users. */
module UserService {
  import opened Wrappers
  import opened Text
  import opened Domain
  import opened UserRepository
  import Validation

  /** `UserResponseDTO`: what a client sees of a user; the password hash is not part of it. */
  datatype UserView = UserView(id: Id, name: string, email: string)

  /** The one-way password encoder, an opaque function of the raw password. */
  type Encoder = string -> string

  function UserNotFound(userId: Id): AppError {
    ResourceNotFound("User not found with id: " + DecimalString(userId))
  }

  const EmailInUse := UserAlreadyExists("Email is already in use.")
  const DeniedAccess := UnauthorizedAccess("You are not authorized to access this resource.")
  const DeniedUpdate := UnauthorizedAccess("You are not authorized to update this resource.")
  const DeniedDelete := UnauthorizedAccess("You are not authorized to delete this resource.")

  /** `convertToDTO`. */
  function ToView(u: User): UserView {
    UserView(u.id, u.name, u.email)
  }

  /** The view hides the password hash and the timestamps, and shows everything else. */
  lemma ViewHidesCredentials(a: User, b: User)
    ensures ToView(a) == ToView(b) <==>
      a.(password := b.password, createdAt := b.createdAt, updatedAt := b.updatedAt) == b
  {
  }

  /** `loadUserByUsername`: the username is the email. */
  function LoadUserByUsername(t: UserTable, username: string): (r: Result<User, AppError>)
    requires t.Valid()
    ensures r.Success? <==> ExistsByEmail(t, username)
    ensures r.Success? ==> r.value.id in t.rows && t.rows[r.value.id] == r.value && r.value.email == username
    ensures r.Failure? ==> r.error == UsernameNotFound("User not found with email: " + username)
  {
    match FindByEmail(t, username)
    case Some(u) => Success(u)
    case None => Failure(UsernameNotFound("User not found with email: " + username))
  }

  /** `createUser`: refuses a taken email; otherwise stores the encoded password. */
  function CreateUser(t: UserTable, name: string, email: string, password: string, encode: Encoder,
                      now: Time): (r: Result<(UserTable, UserView), AppError>)
    requires t.Valid()
    ensures r.Failure? <==> ExistsByEmail(t, email)
    ensures r.Failure? ==> r.error == EmailInUse
    ensures r.Success? ==>
      var (t', v) := r.value;
      && t'.Valid()
      && v.id !in t.rows && t'.rows.Keys == t.rows.Keys + {v.id}
      && t'.rows[v.id] == User(v.id, name, email, encode(password), now, now)
      && v == UserView(v.id, name, email)
      && forall k :: k in t.rows ==> t'.rows[k] == t.rows[k]
  {
    if ExistsByEmail(t, email) then Failure(EmailInUse)
    else
      var (t', saved) := Insert(t, name, email, encode(password), now);
      Success((t', ToView(saved)))
  }

  /** `getUserById`: the caller check comes first, then existence. */
  function GetUserById(t: UserTable, userId: Id, currentUserId: Id): (r: Result<UserView, AppError>)
    requires t.Valid()
    ensures userId != currentUserId ==> r == Failure(DeniedAccess)
    ensures userId == currentUserId && userId !in t.rows ==> r == Failure(UserNotFound(userId))
    ensures r.Success? <==> userId == currentUserId && userId in t.rows
    ensures r.Success? ==> r.value == ToView(t.rows[userId]) && r.value.id == currentUserId
  {
    if userId != currentUserId then Failure(DeniedAccess)
    else
      match FindById(t, userId)
      case None => Failure(UserNotFound(userId))
      case Some(u) => Success(ToView(u))
  }

  /** Whether `updateUser` encodes a new password: only a non-null, non-empty one. */
  predicate Rehashes(password: Option<string>) {
    password.Some? && |password.value| > 0
  }

  /** `updateUser`: caller check, existence, then a conflict only when the email changes to a
      taken one; name and email are overwritten and the password only when a new one is given. */
  function UpdateUser(t: UserTable, userId: Id, name: string, email: string, password: Option<string>,
                      currentUserId: Id, encode: Encoder, now: Time): (r: Result<(UserTable, UserView), AppError>)
    requires t.Valid()
    ensures userId != currentUserId ==> r == Failure(DeniedUpdate)
    ensures userId == currentUserId && userId !in t.rows ==> r == Failure(UserNotFound(userId))
    ensures r == Failure(EmailInUse) <==>
      userId == currentUserId && userId in t.rows && t.rows[userId].email != email && ExistsByEmail(t, email)
    ensures r.Success? <==>
      userId == currentUserId && userId in t.rows && (t.rows[userId].email == email || !ExistsByEmail(t, email))
    ensures r.Success? ==>
      var (t', v) := r.value;
      && t'.Valid()
      && t'.rows.Keys == t.rows.Keys
      && (forall k :: k in t.rows && k != userId ==> t'.rows[k] == t.rows[k])
      && t'.rows[userId].name == name && t'.rows[userId].email == email
      && t'.rows[userId].password ==
           (if Rehashes(password) then encode(password.value) else t.rows[userId].password)
      && t'.rows[userId].id == userId && t'.rows[userId].createdAt == t.rows[userId].createdAt
      && t'.rows[userId].updatedAt == now
      && v == ToView(t'.rows[userId])
  {
    if userId != currentUserId then Failure(DeniedUpdate)
    else
      match FindById(t, userId)
      case None => Failure(UserNotFound(userId))
      case Some(u) =>
        if u.email != email && ExistsByEmail(t, email) then Failure(EmailInUse)
        else
          var renamed := u.(name := name, email := email);
          var changed := if Rehashes(password) then renamed.(password := encode(password.value)) else renamed;
          var (t', saved) := Update(t, changed, now);
          Success((t', ToView(saved)))
  }

  /** `deleteUser`: caller check, existence, then exactly that user is removed. */
  function DeleteUser(t: UserTable, userId: Id, currentUserId: Id): (r: Result<UserTable, AppError>)
    requires t.Valid()
    ensures userId != currentUserId ==> r == Failure(DeniedDelete)
    ensures userId == currentUserId && userId !in t.rows ==> r == Failure(UserNotFound(userId))
    ensures r.Success? <==> userId == currentUserId && userId in t.rows
    ensures r.Success? ==>
      && r.value.Valid()
      && r.value.rows.Keys == t.rows.Keys - {userId}
      && forall k :: k in r.value.rows ==> r.value.rows[k] == t.rows[k]
  {
    if userId != currentUserId then Failure(DeniedDelete)
    else if !ExistsById(t, userId) then Failure(UserNotFound(userId))
    else Success(DeleteById(t, userId))
  }

  /** Registering the same email twice: the second attempt is refused with Conflict. */
  lemma {:induction false} SecondRegistrationConflicts(t: UserTable, name1: string, name2: string, email: string,
                                          pw1: string, pw2: string, encode: Encoder, now1: Time, now2: Time)
    requires t.Valid() && !ExistsByEmail(t, email)
    ensures CreateUser(t, name1, email, pw1, encode, now1).Success?
    ensures CreateUser(CreateUser(t, name1, email, pw1, encode, now1).value.0, name2, email, pw2, encode, now2)
      == Failure(EmailInUse)
  {
    var (t1, v) := CreateUser(t, name1, email, pw1, encode, now1).value;
    assert t1.rows[v.id].email == email;
  }

  /** Keeping one's own email never conflicts: with the caller's own id, the update succeeds. */
  lemma KeepingEmailNeverConflicts(t: UserTable, userId: Id, name: string, password: Option<string>,
                                   encode: Encoder, now: Time)
    requires t.Valid() && userId in t.rows
    ensures UpdateUser(t, userId, name, t.rows[userId].email, password, userId, encode, now).Success?
  {
  }

  /** Checking the caller comes before checking existence: a foreign id is Forbidden for every
      operation, whether or not that user exists. */
  lemma ForeignIdForbiddenBeforeExistence(t: UserTable, userId: Id, currentUserId: Id, name: string,
                                          email: string, password: Option<string>, encode: Encoder, now: Time)
    requires t.Valid() && userId != currentUserId
    ensures GetUserById(t, userId, currentUserId).error.UnauthorizedAccess?
    ensures UpdateUser(t, userId, name, email, password, currentUserId, encode, now).error.UnauthorizedAccess?
    ensures DeleteUser(t, userId, currentUserId).error.UnauthorizedAccess?
  {
  }

  /** An update that arrives through validated `UserDTO` input always carries a password of at
      least six characters, so a successful update always stores its fresh encoding. */
  lemma {:induction false} ValidatedUpdateRehashes(t: UserTable, userId: Id, d: Validation.UserDTO,
                                                   format: Validation.EmailFormat, encode: Encoder, now: Time)
    requires t.Valid() && Validation.ValidateUser(d, format) == []
    ensures d.name.Some? && d.email.Some? && Rehashes(d.password)
    ensures var r := UpdateUser(t, userId, d.name.value, d.email.value, d.password, userId, encode, now);
      r.Success? ==> r.value.0.rows[userId].password == encode(d.password.value)
  {
    Validation.ValidUserHasUsablePassword(d, format);
  }
}
