# do-it notes API: a Dafny model of its business rules

This project models the core of the *do-it* notes backend: a per-user notes store and the
request gate in front of it. It covers the following parts:

- the note and user tables, with the repository queries the services rely on;
- the transitions `NoteService` and `UserService` make on those tables;
- the decision the JWT request filter takes for one request;
- the mapping from exceptions to HTTP status and error body;
- the ordered response envelopes;
- the Bean Validation constraints on the three request bodies.

Everything is a pure function over immutable values. A store operation returns either a
`Success` carrying the new table and the response DTO, or a `Failure` carrying the exception
(`ResourceNotFound`, `UnauthorizedAccess`, `UserAlreadyExists`, `UsernameNotFound`). A failure
carries no table, so a failed operation leaves the store as it was.

Modules, one per source component:

| module | file | models |
|---|---|---|
| `Wrappers` | wrappers.dfy | `Option` / `Result` |
| `Text` | text.dfy | `startsWith`, `contains`, `trim`-blankness, `Long.toString` |
| `Domain` | domain.dfy | the `Note` and `User` entities, field errors, the exception classes |
| `NoteRepository` | note_repository.dfy | `NoteRepository` and the inherited `JpaRepository` operations |
| `UserRepository` | user_repository.dfy | `UserRepository` and the inherited operations; email uniqueness |
| `NoteService` | note_service.dfy | `NoteService` |
| `UserService` | user_service.dfy | `UserService` |
| `Validation` | validation.dfy | `NoteDTO`, `UserDTO`, `LoginDTO` constraints |
| `ExceptionHandler` | exception_handler.dfy | `GlobalExceptionHandler` |
| `ResponseBuilder` | response_builder.dfy | `ApiResponseBuilder` |
| `RequestFilter` | request_filter.dfy | `JwtRequestFilter.doFilterInternal` and its two error replies |

Modelling choices:

- **Tables.** A table is a map from id to row, plus the next id the identity column hands out.
  `Valid()` says three things: ids are positive and below that counter, every row sits under
  its own id, and (for users) no two rows share an email. Every mutating service operation
  requires `Valid()` and proves that it still holds afterwards.
- **Row order and timestamps.** `findAllByUserId` and `findByEmail` scan the ids in ascending
  order. The source issues no `ORDER BY`, so its list order is unspecified. The entity classes
  are not part of this model. Their lifecycle is assumed as follows:
  - a new row gets `createdAt = updatedAt = now`;
  - saving an existing row sets `updatedAt = now`, even when nothing else changed. With
    Hibernate's dirty checking a save that changes no column may leave `updatedAt` alone,
    so a repeated `uncompleteNote` or an identical `updateNote` may keep the old time there;
  - a new note is open (`completed = false`, no `completedAt`).
- **Parameters in place of outside state.** The clock (`now`), the password encoder, the
  `@Email` format check and the two JWT operations are passed in as parameters. The caller's
  id is passed explicitly, instead of being read from the security context.
- **Blankness and length.** "Blank" follows `String.trim()`: every character is at most U+0020.
  `@Size` counts UTF-16 code units, so a character outside the Basic Multilingual Plane
  counts twice.
  `@Email` and `@Size` accept a null value, and `@Email` also accepts an empty one.
- **The model follows the code as written, including these inconsistencies:**
  - The note lookups use two different policies. `getNoteById` answers NotFound for a
    foreign note. update, delete, complete and uncomplete answer Forbidden.
  - The filter lets a token whose username comes back null continue without
    authentication. It does not reject it.
  - A valid token for a user who no longer exists is not answered with 401 (see Findings).

## Model

| member | source | states |
|---|---|---|
| `NoteRepository.FindById` | src/main/java/dev/leandroschillreff/do_it/repository/NoteRepository.java:12 | the inherited lookup finds a note exactly when its id is stored, and returns that row |
| `NoteRepository.FindByIdAndUserId` | src/main/java/dev/leandroschillreff/do_it/repository/NoteRepository.java:15 | present iff the id is stored and owned by that user; when present it is what `findById` returns |
| `NoteRepository.FindAllByUserId` | src/main/java/dev/leandroschillreff/do_it/repository/NoteRepository.java:13 | every returned note is a stored note of that user, every stored note of that user is returned, and none twice |
| `NoteRepository.ScanOwned` | src/main/java/dev/leandroschillreff/do_it/repository/NoteRepository.java:13 | the scan over an id range returns exactly the owner's notes in that range, in strictly ascending id order |
| `NoteRepository.Insert` | src/main/java/dev/leandroschillreff/do_it/repository/NoteRepository.java:12 | `save` of a new note adds one row under a fresh id holding the given owner, title and description, open with no `completedAt` and both timestamps `now`; every existing row is kept and the table stays valid |
| `NoteRepository.Update` | src/main/java/dev/leandroschillreff/do_it/repository/NoteRepository.java:12 | `save` of a stored note replaces only that row (stamped with `now`) and keeps the id set |
| `NoteRepository.Delete` | src/main/java/dev/leandroschillreff/do_it/repository/NoteRepository.java:12 | `delete` removes exactly that id and leaves the other rows untouched |
| `NoteRepository.FindAllAgreesWithScopedLookup` | src/main/java/dev/leandroschillreff/do_it/repository/NoteRepository.java:13-15 | a note is in a user's list iff the scoped lookup of its id for that user finds it |
| `NoteRepository.ForeignNoteHiddenFromScopedLookup` | src/main/java/dev/leandroschillreff/do_it/repository/NoteRepository.java:12-15 | a note owned by someone else is found by `findById` but not by `findByIdAndUserId` |
| `UserRepository.FindById` | src/main/java/dev/leandroschillreff/do_it/repository/UserRepository.java:11 | the inherited lookup is present iff `existsById` holds, and returns that row |
| `UserRepository.ExistsById` | src/main/java/dev/leandroschillreff/do_it/repository/UserRepository.java:11 | inherited `existsById`: the id is stored; `FindById` is present exactly then |
| `UserRepository.ScanEmail` | src/main/java/dev/leandroschillreff/do_it/repository/UserRepository.java:12 | the scan returns the first id in range whose user has the email (no earlier id in range has it), or none when no user in range has it |
| `UserRepository.FindByEmail` | src/main/java/dev/leandroschillreff/do_it/repository/UserRepository.java:12-14 | a returned user is stored and has that email; the result is empty iff `existsByEmail` is false |
| `UserRepository.ExistsByEmail` | src/main/java/dev/leandroschillreff/do_it/repository/UserRepository.java:14 | `existsByEmail`: some stored user has the email; `FindByEmail` is empty exactly when it fails |
| `UserRepository.Insert` | src/main/java/dev/leandroschillreff/do_it/repository/UserRepository.java:11 | saving a user with an unused email adds one row under a fresh id with the given fields and keeps emails unique |
| `UserRepository.Update` | src/main/java/dev/leandroschillreff/do_it/repository/UserRepository.java:11 | saving a stored user whose email no other row has replaces only that row and keeps emails unique |
| `UserRepository.DeleteById` | src/main/java/dev/leandroschillreff/do_it/repository/UserRepository.java:11 | `deleteById` removes only that key; afterwards `existsById` is false for it |
| `UserRepository.FindByEmailIsTheOnlyMatch` | src/main/java/dev/leandroschillreff/do_it/repository/UserRepository.java:12-14 | under email uniqueness, any stored user with the email is the one `findByEmail` returns |
| `NoteService.ViewHidesOnlyOwner` | src/main/java/dev/leandroschillreff/do_it/service/NoteService.java:117-127 | two notes have the same response DTO iff they differ at most in their owner: every other field is copied, the owner never shown |
| `NoteService.ToView` | src/main/java/dev/leandroschillreff/do_it/service/NoteService.java:117-127 | `convertToResponseDTO` copies id, title, description, completion, `completedAt` and both timestamps, and drops the owner (characterised by `ViewHidesOnlyOwner`) |
| `NoteService.GetAllNotesByUserId` | src/main/java/dev/leandroschillreff/do_it/service/NoteService.java:30-35 | the list holds the converted form of every note of the caller, of no note of anyone else, each once |
| `NoteService.GetNoteById` | src/main/java/dev/leandroschillreff/do_it/service/NoteService.java:37-46 | succeeds iff the note exists and is the caller's; every failure is NotFound with the id in the message |
| `NoteService.GetNoteByIdNeverForbidden` | src/main/java/dev/leandroschillreff/do_it/service/NoteService.java:38-43 | the Forbidden branch after the scoped lookup can never be taken; a foreign note reads as not found |
| `NoteService.FindOwned` | src/main/java/dev/leandroschillreff/do_it/service/NoteService.java:62-67 | lookup by id alone: absent is NotFound, a foreign owner is Forbidden, otherwise the stored note |
| `NoteService.LookupPoliciesDisagreeOnForeignNotes` | src/main/java/dev/leandroschillreff/do_it/service/NoteService.java:37-67 | for a foreign note, reading answers NotFound while updating answers Forbidden |
| `NoteService.CreateNote` | src/main/java/dev/leandroschillreff/do_it/service/NoteService.java:48-59 | fails with NotFound iff the owner does not exist; otherwise exactly one new open note of the caller with the given title and description, old notes unchanged |
| `NoteService.UpdateNote` | src/main/java/dev/leandroschillreff/do_it/service/NoteService.java:61-74 | NotFound, then Forbidden; on success only title, description and update time change, owner and completion kept, other notes untouched |
| `NoteService.DeleteNote` | src/main/java/dev/leandroschillreff/do_it/service/NoteService.java:76-85 | NotFound, then Forbidden; on success exactly that note is removed and all others kept |
| `NoteService.CompleteNote` | src/main/java/dev/leandroschillreff/do_it/service/NoteService.java:87-100 | NotFound, then Forbidden; on success the note is completed with `completedAt` set to the supplied time, nothing else changes |
| `NoteService.UncompleteNote` | src/main/java/dev/leandroschillreff/do_it/service/NoteService.java:102-115 | NotFound, then Forbidden; on success the note is open with no `completedAt`, nothing else changes |
| `NoteService.MutationsSpareOtherOwners` | src/main/java/dev/leandroschillreff/do_it/service/NoteService.java:61-115 | no update, delete, complete or uncomplete by one user changes a note owned by another |
| `NoteService.CompleteTwice` | src/main/java/dev/leandroschillreff/do_it/service/NoteService.java:87-100 | completing a completed note succeeds again and keeps it completed, stamped with the later time |
| `NoteService.UncompleteIdempotent` | src/main/java/dev/leandroschillreff/do_it/service/NoteService.java:102-115 | uncompleting twice (same clock) yields the same table and response as uncompleting once |
| `NoteService.OperationsKeepCompletionConsistent` | src/main/java/dev/leandroschillreff/do_it/service/NoteService.java:48-115 | if every note has `completed` iff `completedAt` is set, every note operation keeps it so |
| `UserService.ViewHidesCredentials` | src/main/java/dev/leandroschillreff/do_it/service/UserService.java:95-101 | two users have the same DTO iff they differ only in password hash and timestamps: the hash is never exposed |
| `UserService.ToView` | src/main/java/dev/leandroschillreff/do_it/service/UserService.java:95-101 | `convertToDTO` copies id, name and email, and drops the password hash and timestamps (characterised by `ViewHidesCredentials`) |
| `UserService.LoadUserByUsername` | src/main/java/dev/leandroschillreff/do_it/service/UserService.java:30-34 | returns the stored user whose email is the username; fails with UsernameNotFound iff no user has that email |
| `UserService.CreateUser` | src/main/java/dev/leandroschillreff/do_it/service/UserService.java:36-48 | Conflict iff the email is taken; otherwise one new user with the name, the email and the encoded password, emails still unique |
| `UserService.SecondRegistrationConflicts` | src/main/java/dev/leandroschillreff/do_it/service/UserService.java:36-39 | registering a fresh email succeeds and registering it again is refused with Conflict |
| `UserService.GetUserById` | src/main/java/dev/leandroschillreff/do_it/service/UserService.java:50-58 | Forbidden for a foreign id, NotFound for the caller's own absent id, otherwise the caller's own DTO |
| `UserService.UpdateUser` | src/main/java/dev/leandroschillreff/do_it/service/UserService.java:60-82 | Forbidden, NotFound, then Conflict iff the email changes to a taken one; overwrites name and email, re-encodes only a non-null non-empty password, keeps emails unique |
| `UserService.KeepingEmailNeverConflicts` | src/main/java/dev/leandroschillreff/do_it/service/UserService.java:68-71 | an update by the owner that keeps the stored email always succeeds |
| `UserService.DeleteUser` | src/main/java/dev/leandroschillreff/do_it/service/UserService.java:84-93 | Forbidden, then NotFound; on success removes exactly that user id |
| `UserService.ForeignIdForbiddenBeforeExistence` | src/main/java/dev/leandroschillreff/do_it/service/UserService.java:50-93 | for a foreign id, get, update and delete answer Forbidden whether or not that user exists |
| `UserService.ValidatedUpdateRehashes` | src/main/java/dev/leandroschillreff/do_it/service/UserService.java:76-78 | input that passed `UserDTO` validation always has a password to encode, so a successful update stores its encoding |
| `Validation.NotBlank` | src/main/java/dev/leandroschillreff/do_it/dto/UserDTO.java:14-21 | `@NotBlank`: a null value fails, and so does one with nothing left after `trim()` |
| `Validation.EmailOk` | src/main/java/dev/leandroschillreff/do_it/dto/LoginDTO.java:14-16 | `@Email`: a null or empty value passes; any other value must have the address format |
| `Validation.LongEnough` | src/main/java/dev/leandroschillreff/do_it/dto/UserDTO.java:22-23 | `@Size(min = 6)`: a null value passes; any other value needs at least six UTF-16 code units |
| `Validation.ValidateNote` | src/main/java/dev/leandroschillreff/do_it/dto/NoteDTO.java:11-17 | a title error iff the title is null or blank, a description error iff the description is, checked independently; no other error |
| `Validation.WhitespaceTitleIsBlank` | src/main/java/dev/leandroschillreff/do_it/dto/NoteDTO.java:12-13 | whitespace-only, empty and missing titles are all rejected |
| `Validation.ValidateUser` | src/main/java/dev/leandroschillreff/do_it/dto/UserDTO.java:13-23 | each of the five constraints reports its message iff it is violated, and nothing else is reported; `@Size` counts UTF-16 code units |
| `Validation.ValidUserHasUsablePassword` | src/main/java/dev/leandroschillreff/do_it/dto/UserDTO.java:21-23 | a body with no errors has name, email and a password of at least six UTF-16 code units, hence at least three characters |
| `Validation.SizeBoundary` | src/main/java/dev/leandroschillreff/do_it/dto/UserDTO.java:22-23 | six UTF-16 code units meet the minimum and five do not; for text inside the Basic Multilingual Plane, a password is long enough iff it has at least six characters |
| `Validation.AstralCharactersCountTwice` | src/main/java/dev/leandroschillreff/do_it/dto/UserDTO.java:22-23 | three characters outside the Basic Multilingual Plane are six UTF-16 code units and satisfy `@Size(min = 6)` |
| `Validation.ValidateLogin` | src/main/java/dev/leandroschillreff/do_it/dto/LoginDTO.java:12-19 | blank email, malformed email and blank password are each reported iff violated, and nothing else |
| `Validation.LoginHasNoMinimumLength` | src/main/java/dev/leandroschillreff/do_it/dto/LoginDTO.java:18-19 | a non-blank password shorter than six UTF-16 code units passes login validation but fails registration validation |
| `ExceptionHandler.Handle` | src/main/java/dev/leandroschillreff/do_it/exception/GlobalExceptionHandler.java:19-121 | 404, 409, 403, 401, 400 and 500 per exception class; the body status always equals the HTTP status; only validation failures carry an error map |
| `ExceptionHandler.HandlersHideDetails` | src/main/java/dev/leandroschillreff/do_it/exception/GlobalExceptionHandler.java:114-121 | unexpected errors and bad credentials get a fixed answer that does not depend on the exception |
| `ExceptionHandler.UnreadableMessage` | src/main/java/dev/leandroschillreff/do_it/exception/GlobalExceptionHandler.java:73-86 | the "empty" text iff the parser message is present and contains "No content to map", the "malformed" text otherwise |
| `ExceptionHandler.NoContentAnywhereSelectsEmpty` | src/main/java/dev/leandroschillreff/do_it/exception/GlobalExceptionHandler.java:77-79 | "No content to map" anywhere in the parser message selects the "empty" text |
| `ExceptionHandler.CollectErrors` | src/main/java/dev/leandroschillreff/do_it/exception/GlobalExceptionHandler.java:99-104 | folding errors into the map keeps exactly the fields seen, with the message of the last error per field |
| `ExceptionHandler.ErrorMap` | src/main/java/dev/leandroschillreff/do_it/exception/GlobalExceptionHandler.java:97-112 | the error map has one entry per offending field, holding the last message reported for it |
| `ExceptionHandler.LastErrorWins` | src/main/java/dev/leandroschillreff/do_it/exception/GlobalExceptionHandler.java:99-104 | two errors on one field leave only the second message |
| `ResponseBuilder.Put` | src/main/java/dev/leandroschillreff/do_it/util/ApiResponseBuilder.java:19-23 | `LinkedHashMap.put`: a new key is appended, an existing key keeps its place, the key maps to the new value, other keys are unaffected |
| `ResponseBuilder.BuildSuccessResponse` | src/main/java/dev/leandroschillreff/do_it/util/ApiResponseBuilder.java:18-26 | exactly timestamp, status, message, data in that order, holding the arguments unchanged |
| `ResponseBuilder.BuildErrorResponse` | src/main/java/dev/leandroschillreff/do_it/util/ApiResponseBuilder.java:28-35 | timestamp, status, message in that order, each holding its argument, and no data key |
| `ResponseBuilder.PutNewKeyAppends` | src/main/java/dev/leandroschillreff/do_it/util/ApiResponseBuilder.java:19-23 | putting a key not yet present appends exactly that entry at the end |
| `ResponseBuilder.PutHead` | src/main/java/dev/leandroschillreff/do_it/util/ApiResponseBuilder.java:19-22 | the first three puts into a fresh map yield timestamp, status, message in that order, with status and message retrievable and no data key yet |
| `ResponseBuilder.BuildLoginResponse` | src/main/java/dev/leandroschillreff/do_it/util/ApiResponseBuilder.java:37-55 | whatever the user and token: keys in envelope order, status 200, message "Login successful", data holding the token and then the user object, and no key "password" at any depth |
| `ResponseBuilder.BuildProfile` | src/main/java/dev/leandroschillreff/do_it/util/ApiResponseBuilder.java:46-49 | the user object is id, name, email in that order and never mentions a password |
| `RequestFilter.Token` | src/main/java/dev/leandroschillreff/do_it/security/JwtRequestFilter.java:59 | the token is the header with "Bearer " removed: prefix plus token gives back the header |
| `RequestFilter.IsPublic` | src/main/java/dev/leandroschillreff/do_it/security/JwtRequestFilter.java:44-48 | the path starts with one of the five allow-listed prefixes |
| `RequestFilter.HasBearer` | src/main/java/dev/leandroschillreff/do_it/security/JwtRequestFilter.java:53 | the header is present and starts with "Bearer ", case-sensitively |
| `RequestFilter.TokenAfterPrefix` | src/main/java/dev/leandroschillreff/do_it/security/JwtRequestFilter.java:59 | for a header "Bearer " + t the oracles see exactly t |
| `RequestFilter.Decide` | src/main/java/dev/leandroschillreff/do_it/security/JwtRequestFilter.java:37-86 | allow-listed paths pass; otherwise 403 iff no bearer header; an unparseable token gets 401; a null username or an existing authentication passes; a token naming a stored user with no prior authentication authenticates that user if the token validates and gets 401 if not; a token naming a missing user lets UsernameNotFound escape; and each outcome happens only in its case |
| `RequestFilter.Reply` | src/main/java/dev/leandroschillreff/do_it/security/JwtRequestFilter.java:88-110 | the filter writes 403 "Bearer token not provided" or 401 "Bearer token is invalid or expired" and nothing in the other outcomes |
| `RequestFilter.ChainOrReply` | src/main/java/dev/leandroschillreff/do_it/security/JwtRequestFilter.java:44-85 | the filter never both continues the chain and writes a reply, and does one of them unless an exception escapes |
| `RequestFilter.MissingTokenReplyAgreesWithHandler` | src/main/java/dev/leandroschillreff/do_it/security/JwtRequestFilter.java:88-98 | the filter's own 403 is what the error handler would answer for a `MissingTokenException` with that message |
| `RequestFilter.ProtectedChainNeedsBearer` | src/main/java/dev/leandroschillreff/do_it/security/JwtRequestFilter.java:53-56 | a protected request reaches the chain only with a header starting with "Bearer " |
| `RequestFilter.IdentityOnlyFromValidatedToken` | src/main/java/dev/leandroschillreff/do_it/security/JwtRequestFilter.java:69-79 | the security context changes only when none was set, to a stored user whose email the token names and whose token validated |
| `RequestFilter.NoUsernameOrAlreadyAuthenticatedPassesThrough` | src/main/java/dev/leandroschillreff/do_it/security/JwtRequestFilter.java:83-85 | a null username or an existing authentication lets the request continue with the context unchanged |
| `RequestFilter.AuthRootIsProtected` | src/main/java/dev/leandroschillreff/do_it/security/JwtRequestFilter.java:44-48 | "/api/auth" without the trailing slash is protected; every path under "/api/auth/" is public |
| `RequestFilter.LowerCaseSchemeIsMissing` | src/main/java/dev/leandroschillreff/do_it/security/JwtRequestFilter.java:53 | a "bearer " header on a protected path is treated as a missing token |
| `RequestFilter.DeletedUserTokenEscapes` | src/main/java/dev/leandroschillreff/do_it/security/JwtRequestFilter.java:69-70 | as written, a token naming a user who does not exist makes the lookup exception leave the filter |
| `RequestFilter.DecideCorrected` | src/main/java/dev/leandroschillreff/do_it/security/JwtRequestFilter.java:69-82 | the corrected filter never lets an exception escape and otherwise decides as written |
| `RequestFilter.CorrectedGateAnswersDeletedUser` | src/main/java/dev/leandroschillreff/do_it/security/JwtRequestFilter.java:69-82 | the corrected filter answers a token for a missing user with 401 "Bearer token is invalid or expired" |
| `Text.DecimalStringInjective` | src/main/java/dev/leandroschillreff/do_it/service/NoteService.java:20 | the not-found messages built from "…with id: " + id name exactly one id |
| `Text.DecimalString` | src/main/java/dev/leandroschillreff/do_it/service/NoteService.java:20 | string concatenation of a `Long`: never empty, and all digits exactly when the id is not negative |
| `Text.StartsWith` | src/main/java/dev/leandroschillreff/do_it/security/JwtRequestFilter.java:44-53 | `String.startsWith`: the prefix is the string's first characters, compared case-sensitively |
| `Text.ContainsIffOccurs` | src/main/java/dev/leandroschillreff/do_it/exception/GlobalExceptionHandler.java:77 | `String.contains`: holds exactly when the part occurs at some index of the string |
| `Text.IsBlank` | src/main/java/dev/leandroschillreff/do_it/dto/NoteDTO.java:12-16 | `@NotBlank`'s blankness: nothing is left once `trim()` removes every character up to U+0020 |
| `Text.Utf16Length` | src/main/java/dev/leandroschillreff/do_it/dto/UserDTO.java:22-23 | `CharSequence.length()`: between one and two units per character, exactly one per character for text inside the Basic Multilingual Plane and two for a single astral character |
| `Text.Utf16LengthOfConcat` | src/main/java/dev/leandroschillreff/do_it/dto/UserDTO.java:22-23 | the length of a concatenation is the sum of the lengths, which with the one-character case fixes the count of any mixed text |

## Left out

- Controllers (`NoteController`, `UserController`, `AuthController`) are thin HTTP routing and
  are not modelled. `UserController.java:69` returns the bare DTO with no envelope.
- `AuthService.login` delegates to the framework's authentication manager, and
  `getCurrentUserId` reads thread-local state. The caller id is a parameter instead. A null
  caller id, which `getCurrentUserId` can return, is not modelled.
- Signing, parsing and expiry of JWTs (RFC 7519) and the bcrypt encoder are opaque function
  parameters. `JwtUtil` is not part of this model.
- `LocalDateTime.now()` and ISO-instant formatting are not modelled. Time is a parameter, and
  envelope timestamps are passed in as text.
- JSON serialisation and the writing of servlet responses are not modelled.
- The `@Email` regular expression is an abstract predicate parameter.
- Ids are unbounded integers. The 64-bit range of `Long` is not modelled, because no
  operation does arithmetic on ids.
- The services take already-validated non-null name, email, title and description, because
  every controller validates with `@Valid` first. `updateUser`'s password stays optional,
  to mirror its null and empty checks.
- Bean Validation reports violations in an unspecified order. The validators list them in
  declaration order. The error map is proved for any order (last one wins).
- Deleting a user does not remove that user's notes. Any cascade is a schema matter, and the
  entities are not part of this model.
- Concurrent writes are not modelled; the model is sequential. The race on the email
  pre-check is one example: the database's unique constraint settles it in the real system.
- `UserRepository.Insert` requires that the email is unused. The real unique constraint would
  raise an exception instead; the service always checks first.
- `UserService.CreateUser` states that the stored password is the encoder's output. That it
  differs from the raw password is a property of bcrypt, which stays opaque here.
- `OpenApiConfig` and `DotenvPostProcessor` are configuration and are not modelled. The
  exception classes `MalformedJsonException` and `MissingTokenException` are left out as
  classes; their handlers are modelled through `AppError.MalformedJson`, `AppError.MissingToken`
  and `ExceptionHandler.Handle`. The filter writes its 403 directly; it never throws
  `MissingTokenException`.
- `UserRepository.ExistsByEmail`: email matching in `findByEmail`, `existsByEmail` and the
  unique constraint is exact character equality. In the real system the database collation
  decides it, and the database is not part of this model. Under a case-insensitive collation,
  changing only the case of one's own email would answer 409 (`updateUser` compares with
  `String.equals` and then `existsByEmail` matches the caller's own row), and `createUser`
  would refuse a case variant of a taken email; the model accepts both.
- `RequestFilter.Decide`: `validateToken` is assumed not to throw. In the source it also runs
  outside the `try`, so an exception from it would escape as well; `DecideCorrected`'s
  promise that nothing escapes rests on this assumption.
- The `logger.error` call in the filter's `catch` block is not modelled; it has no effect on
  the decision.
- `UserService.Encoder` is a deterministic function, while bcrypt salts every encoding. No
  lemma relies on two encodings of one password being equal.

## Findings

| source | as written | input that shows it | evidently intended | confidence | as-written member | corrected member |
|---|---|---|---|---|---|---|
| src/main/java/dev/leandroschillreff/do_it/security/JwtRequestFilter.java:69-70 | `loadUserByUsername` is called outside the `try` that guards token parsing. Its `UsernameNotFoundException` therefore leaves the filter, where the error handler does not reach it. | a user deletes their account, then sends a request with their still-unexpired token | answer 401 "Bearer token is invalid or expired", as for any unusable token | medium; not executed | `RequestFilter.DeletedUserTokenEscapes` | `RequestFilter.DecideCorrected` |
