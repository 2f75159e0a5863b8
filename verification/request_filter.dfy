/** The decision `JwtRequestFilter.doFilterInternal` takes for one request. The token checks are
    oracles: `extract` stands for `extractUsername` (which may throw) and `validate` for
    `validateToken`. */
module RequestFilter {
  import opened Wrappers
  import opened Text
  import opened Domain
  import opened UserRepository
  import UserService
  import ExceptionHandler

  /** What `extractUsername` does with a token: throws, or yields a possibly null username. */
  datatype Extraction = Unparseable | Subject(username: Option<string>)

  type Extractor = string -> Extraction
  type Validator = (string, User) -> bool

  /** The outcome of the filter for one request. */
  datatype Decision =
    | PassThrough                   // the chain continues, the security context as it was
    | RejectMissing                 // 403 written, the chain not invoked
    | RejectInvalid                 // 401 written, the chain not invoked
    | Authenticate(principal: User) // the principal is installed, then the chain continues
    | Escaped(error: AppError)      // an exception leaves the filter

  const BearerPrefix := "Bearer "
  const MissingTokenMessage := "Bearer token not provided"
  const InvalidTokenMessage := "Bearer token is invalid or expired"

  /** The allow-listed path prefixes. */
  predicate IsPublic(path: string) {
    || StartsWith(path, "/api/auth/")
    || StartsWith(path, "/swagger-ui")
    || StartsWith(path, "/v3/api-docs")
    || StartsWith(path, "/swagger-resources")
    || StartsWith(path, "/webjars")
  }

  /** A header of the bearer form, matched case-sensitively. */
  predicate HasBearer(header: Option<string>) {
    header.Some? && StartsWith(header.value, BearerPrefix)
  }

  /** `authorizationHeader.substring(7)`: the header without its scheme. */
  function Token(header: string): (t: string)
    requires StartsWith(header, BearerPrefix)
    ensures BearerPrefix + t == header
  {
    header[|BearerPrefix|..]
  }

  /** `doFilterInternal` as written. */
  function Decide(path: string, header: Option<string>, context: Option<User>, users: UserTable,
                  extract: Extractor, validate: Validator): (d: Decision)
    requires users.Valid()
    ensures IsPublic(path) ==> d == PassThrough
    ensures !IsPublic(path) ==> (d == RejectMissing <==> !HasBearer(header))
    ensures d.Authenticate? ==>
      && !IsPublic(path) && HasBearer(header) && context.None?
      && extract(Token(header.value)) == Subject(Some(d.principal.email))
      && validate(Token(header.value), d.principal)
      && d.principal.id in users.rows && users.rows[d.principal.id] == d.principal
    ensures d.Escaped? ==>
      && HasBearer(header) && context.None?
      && extract(Token(header.value)).Subject? && extract(Token(header.value)).username.Some?
      && !ExistsByEmail(users, extract(Token(header.value)).username.value)
      && d.error.UsernameNotFound?
    // The converse directions: what each kind of bearer request on a protected path gets.
    ensures (!IsPublic(path) && HasBearer(header) && extract(Token(header.value)).Unparseable?)
      ==> d == RejectInvalid
    ensures (&& !IsPublic(path) && HasBearer(header) && extract(Token(header.value)).Subject?
             && (extract(Token(header.value)).username.None? || context.Some?))
      ==> d == PassThrough
    ensures forall k ::
              (&& k in users.rows && !IsPublic(path) && HasBearer(header) && context.None?
               && extract(Token(header.value)) == Subject(Some(users.rows[k].email)))
              ==> d == (if validate(Token(header.value), users.rows[k])
                        then Authenticate(users.rows[k]) else RejectInvalid)
    ensures (&& !IsPublic(path) && HasBearer(header) && context.None?
             && extract(Token(header.value)).Subject? && extract(Token(header.value)).username.Some?
             && !ExistsByEmail(users, extract(Token(header.value)).username.value))
      ==> d == Escaped(UsernameNotFound("User not found with email: " + extract(Token(header.value)).username.value))
  {
    if IsPublic(path) then PassThrough
    else if !HasBearer(header) then RejectMissing
    else
      var jwt := Token(header.value);
      match extract(jwt)
      case Unparseable => RejectInvalid
      case Subject(username) =>
        if username.Some? && context.None? then
          match UserService.LoadUserByUsername(users, username.value)
          case Failure(e) => Escaped(e)
          case Success(u) => if validate(jwt, u) then Authenticate(u) else RejectInvalid
        else PassThrough
  }

  /** Whether the filter hands the request on to the rest of the chain. */
  predicate ContinuesChain(d: Decision) {
    d.PassThrough? || d.Authenticate?
  }

  /** The security context after the filter. */
  function ContextAfter(d: Decision, context: Option<User>): Option<User> {
    if d.Authenticate? then Some(d.principal) else context
  }

  /** The response the filter writes itself, if any. */
  function Reply(d: Decision): (r: Option<ExceptionHandler.ErrorResponse>)
    ensures r.Some? <==> d.RejectMissing? || d.RejectInvalid?
    ensures d.RejectMissing? ==> r.value.httpStatus == 403 && r.value.message == MissingTokenMessage
    ensures d.RejectInvalid? ==> r.value.httpStatus == 401 && r.value.message == InvalidTokenMessage
  {
    match d
    case RejectMissing => Some(ExceptionHandler.Respond(ExceptionHandler.Forbidden, MissingTokenMessage))
    case RejectInvalid => Some(ExceptionHandler.Respond(ExceptionHandler.Unauthorized, InvalidTokenMessage))
    case _ => None
  }

  /** The filter either continues the chain or writes a reply, never both; only an escaping
      exception does neither. */
  lemma ChainOrReply(path: string, header: Option<string>, context: Option<User>, users: UserTable,
                     extract: Extractor, validate: Validator)
    requires users.Valid()
    ensures var d := Decide(path, header, context, users, extract, validate);
      && !(ContinuesChain(d) && Reply(d).Some?)
      && (ContinuesChain(d) || Reply(d).Some? || d.Escaped?)
  {
  }

  /** The filter's 403 is the answer the error handler gives a `MissingTokenException`. */
  lemma MissingTokenReplyAgreesWithHandler()
    ensures Reply(RejectMissing) == Some(ExceptionHandler.Handle(MissingToken(MissingTokenMessage)))
  {
  }

  /** A protected request reaches the chain only with a bearer header. */
  lemma {:induction false} ProtectedChainNeedsBearer(path: string, header: Option<string>, context: Option<User>,
                                        users: UserTable, extract: Extractor, validate: Validator)
    requires users.Valid() && !IsPublic(path)
    ensures ContinuesChain(Decide(path, header, context, users, extract, validate)) ==> HasBearer(header)
  {
  }

  /** The security context changes only by installing a stored user whose own token validated,
      and only when no authentication was present. */
  lemma {:induction false} IdentityOnlyFromValidatedToken(path: string, header: Option<string>, context: Option<User>,
                                             users: UserTable, extract: Extractor, validate: Validator)
    requires users.Valid()
    ensures var d := Decide(path, header, context, users, extract, validate);
      ContextAfter(d, context) != context ==>
        && context.None? && HasBearer(header)
        && var u := ContextAfter(d, context).value;
        && u.id in users.rows && users.rows[u.id] == u
        && validate(Token(header.value), u)
        && extract(Token(header.value)) == Subject(Some(u.email))
  {
  }

  /** With a null username or an existing authentication, a bearer request on a protected path
      continues with the context unchanged, whatever the token. */
  lemma {:induction false} NoUsernameOrAlreadyAuthenticatedPassesThrough(path: string, header: Option<string>,
      context: Option<User>, users: UserTable, extract: Extractor, validate: Validator)
    requires users.Valid() && !IsPublic(path) && HasBearer(header)
    requires extract(Token(header.value)) == Subject(None) || (extract(Token(header.value)).Subject? && context.Some?)
    ensures Decide(path, header, context, users, extract, validate) == PassThrough
  {
  }

  /** `/api/auth` itself is not allow-listed, while everything below `/api/auth/` is. */
  lemma AuthRootIsProtected(rest: string)
    ensures !IsPublic("/api/auth")
    ensures IsPublic("/api/auth/" + rest)
  {
    var root := "/api/auth";
    assert root[..8][1] != "/webjars"[1];
    var p := "/api/auth/" + rest;
    assert p[..|"/api/auth/"|] == "/api/auth/";
  }

  /** The scheme is matched case-sensitively: a lower-case `bearer` header on a protected path
      is treated as missing, though section 2.1 of RFC 7235 makes the scheme case-insensitive. */
  lemma LowerCaseSchemeIsMissing(path: string, t: string, context: Option<User>, users: UserTable,
                                 extract: Extractor, validate: Validator)
    requires users.Valid() && !IsPublic(path)
    ensures Decide(path, Some("bearer " + t), context, users, extract, validate) == RejectMissing
  {
    var h := "bearer " + t;
    assert h[0] != BearerPrefix[0];
  }

  /** The token the oracles see is exactly what follows `Bearer `. */
  lemma TokenAfterPrefix(t: string)
    ensures Token(BearerPrefix + t) == t
  {
    var h := BearerPrefix + t;
    assert h[..|BearerPrefix|] == BearerPrefix;
  }

  /** As written, a well-formed token naming a user who no longer exists makes
      `loadUserByUsername` throw out of the filter instead of producing the 401. */
  lemma {:induction false} DeletedUserTokenEscapes(path: string, t: string, email: string, users: UserTable,
                                      extract: Extractor, validate: Validator)
    requires users.Valid() && !IsPublic(path) && !ExistsByEmail(users, email)
    requires extract(t) == Subject(Some(email))
    ensures Decide(path, Some(BearerPrefix + t), None, users, extract, validate)
      == Escaped(UsernameNotFound("User not found with email: " + email))
  {
    TokenAfterPrefix(t);
    var h := BearerPrefix + t;
    assert h[..|BearerPrefix|] == BearerPrefix;
  }

  /** The filter with a failed user lookup answered like any other unusable token. */
  function DecideCorrected(path: string, header: Option<string>, context: Option<User>, users: UserTable,
                           extract: Extractor, validate: Validator): (d: Decision)
    requires users.Valid()
    ensures !d.Escaped?
    ensures var asWritten := Decide(path, header, context, users, extract, validate);
      d == (if asWritten.Escaped? then RejectInvalid else asWritten)
  {
    match Decide(path, header, context, users, extract, validate)
    case Escaped(_) => RejectInvalid
    case other => other
  }

  /** In the corrected filter every protected request with a bearer header either continues
      or is answered with a 401: a token for a missing user gets the 401. */
  lemma {:induction false} CorrectedGateAnswersDeletedUser(path: string, t: string, email: string, users: UserTable,
                                              extract: Extractor, validate: Validator)
    requires users.Valid() && !IsPublic(path) && !ExistsByEmail(users, email)
    requires extract(t) == Subject(Some(email))
    ensures Reply(DecideCorrected(path, Some(BearerPrefix + t), None, users, extract, validate))
      == Some(ExceptionHandler.Respond(401, InvalidTokenMessage))
  {
    DeletedUserTokenEscapes(path, t, email, users, extract, validate);
  }
}
