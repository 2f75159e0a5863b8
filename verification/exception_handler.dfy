/** `GlobalExceptionHandler`: each exception class mapped to an HTTP status and an error body. */
module ExceptionHandler {
  import opened Wrappers
  import opened Text
  import opened Domain

  /** The response entity: its HTTP status and the `ErrorResponse` body (timestamp abstracted);
      `errors` is present only for validation failures. */
  datatype ErrorResponse = ErrorResponse(
    httpStatus: int,
    status: int,
    message: string,
    errors: Option<map<string, string>>)

  const BadRequest := 400
  const Unauthorized := 401
  const Forbidden := 403
  const NotFound := 404
  const Conflict := 409
  const InternalServerError := 500

  const InvalidCredentialsMessage := "Invalid email or password."
  const EmptyBodyMessage := "The request body is empty or not provided."
  const MalformedBodyMessage := "The request body is malformed or contains invalid data."
  const NoContentMarker := "No content to map"
  const ValidationMessage := "Validation error."
  const InternalMessage := "An internal error occurred."

  function Respond(status: int, message: string): (r: ErrorResponse)
    ensures r.httpStatus == r.status == status && r.message == message && r.errors.None?
  {
    ErrorResponse(status, status, message, None)
  }

  /** The body message for an unreadable request: the "empty" text when the parser reported
      that there was nothing to map, the "malformed" text otherwise. */
  function UnreadableMessage(detail: Option<string>): (m: string)
    ensures m == EmptyBodyMessage <==> detail.Some? && Contains(detail.value, NoContentMarker)
    ensures m == EmptyBodyMessage || m == MalformedBodyMessage
  {
    if detail.Some? && Contains(detail.value, NoContentMarker) then EmptyBodyMessage
    else MalformedBodyMessage
  }

  /** Folds field errors into a map in order, as `HashMap.put` inside `forEach` does. */
  function CollectErrors(acc: map<string, string>, errs: seq<FieldError>): (m: map<string, string>)
    ensures forall f :: f in m <==> f in acc || exists i :: 0 <= i < |errs| && errs[i].field == f
    ensures forall f :: f in acc && (forall i :: 0 <= i < |errs| ==> errs[i].field != f) ==> m[f] == acc[f]
    ensures forall i :: 0 <= i < |errs| && (forall j :: i < j < |errs| ==> errs[j].field != errs[i].field) ==>
      m[errs[i].field] == errs[i].message
    decreases |errs|
  {
    if |errs| == 0 then acc
    else
      var rest := errs[1..];
      assert forall i :: 1 <= i < |errs| ==> errs[i] == rest[i - 1];
      CollectErrors(acc[errs[0].field := errs[0].message], rest)
  }

  /** The field→message map of a validation failure: one entry per offending field, holding
      the message of the last error reported for it. */
  function ErrorMap(errs: seq<FieldError>): (m: map<string, string>)
    ensures forall f :: f in m <==> exists e :: e in errs && e.field == f
    ensures forall i :: 0 <= i < |errs| && (forall j :: i < j < |errs| ==> errs[j].field != errs[i].field) ==>
      m[errs[i].field] == errs[i].message
  {
    var m := CollectErrors(map[], errs);
    forall f | f in m ensures exists e :: e in errs && e.field == f {
      var i :| 0 <= i < |errs| && errs[i].field == f;
      assert errs[i] in errs;
    }
    m
  }

  /** The handler Spring selects for each exception, and what it answers. */
  function Handle(e: AppError): (r: ErrorResponse)
    ensures r.httpStatus == r.status
    ensures r.errors.Some? <==> e.ArgumentNotValid?
    ensures e.ResourceNotFound? ==> r == Respond(NotFound, e.message)
    ensures e.UserAlreadyExists? ==> r == Respond(Conflict, e.message)
    ensures e.UnauthorizedAccess? || e.MissingToken? ==> r == Respond(Forbidden, e.message)
    ensures e.BadCredentials? ==> r == Respond(Unauthorized, InvalidCredentialsMessage)
    ensures e.MalformedJson? || e.EmptyJson? ==> r == Respond(BadRequest, e.message)
    ensures e.MessageNotReadable? ==> r == Respond(BadRequest, UnreadableMessage(e.detail))
    ensures e.ArgumentNotValid? ==>
      r == ErrorResponse(BadRequest, BadRequest, ValidationMessage, Some(ErrorMap(e.fieldErrors)))
    ensures e.UsernameNotFound? || e.Unexpected? ==> r == Respond(InternalServerError, InternalMessage)
  {
    match e
    case ResourceNotFound(msg) => Respond(NotFound, msg)
    case UserAlreadyExists(msg) => Respond(Conflict, msg)
    case UnauthorizedAccess(msg) => Respond(Forbidden, msg)
    case BadCredentials(_) => Respond(Unauthorized, InvalidCredentialsMessage)
    case MalformedJson(msg) => Respond(BadRequest, msg)
    case EmptyJson(msg) => Respond(BadRequest, msg)
    case MessageNotReadable(detail) => Respond(BadRequest, UnreadableMessage(detail))
    case MissingToken(msg) => Respond(Forbidden, msg)
    case ArgumentNotValid(errs) =>
      ErrorResponse(BadRequest, BadRequest, ValidationMessage, Some(ErrorMap(errs)))
    // UsernameNotFoundException has no handler of its own and falls to the catch-all.
    case UsernameNotFound(_) => Respond(InternalServerError, InternalMessage)
    case Unexpected(_) => Respond(InternalServerError, InternalMessage)
  }

  /** The catch-all and the bad-credentials handler leak nothing of the exception: any two such
      exceptions get the same answer. */
  lemma HandlersHideDetails(a: Option<string>, b: Option<string>, m1: string, m2: string)
    ensures Handle(Unexpected(a)) == Handle(Unexpected(b))
    ensures Handle(BadCredentials(m1)) == Handle(BadCredentials(m2))
  {
  }

  /** A parser message that mentions "No content to map" anywhere selects the "empty" text. */
  lemma {:induction false} NoContentAnywhereSelectsEmpty(before: string, after: string)
    ensures UnreadableMessage(Some(before + NoContentMarker + after)) == EmptyBodyMessage
    decreases |before|
  {
    var s := before + NoContentMarker + after;
    if |before| == 0 {
      assert s[..|NoContentMarker|] == NoContentMarker;
    } else {
      assert s[1..] == before[1..] + NoContentMarker + after;
      NoContentAnywhereSelectsEmpty(before[1..], after);
    }
  }

  /** When one field has two errors, the one reported last is the one the client sees. */
  lemma LastErrorWins(f: string, m1: string, m2: string)
    ensures ErrorMap([FieldError(f, m1), FieldError(f, m2)]) == map[f := m2]
  {
    var errs := [FieldError(f, m1), FieldError(f, m2)];
    var m := ErrorMap(errs);
    assert m[errs[1].field] == m2;
    assert m.Keys == {f} by {
      forall g | g in m ensures g == f {
        var e :| e in errs && e.field == g;
      }
      assert errs[0] in errs;
    }
  }
}
