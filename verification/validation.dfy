/** The Bean Validation constraints declared on `NoteDTO`, `UserDTO` and `LoginDTO`, as functions
    from a request body to the field errors it raises (in declaration order). */
module Validation {
  import opened Wrappers
  import opened Text
  import opened Domain

  /** Request bodies; a missing or `null` JSON field is `None`. */
  datatype NoteDTO = NoteDTO(title: Option<string>, description: Option<string>)
  datatype UserDTO = UserDTO(name: Option<string>, email: Option<string>, password: Option<string>)
  datatype LoginDTO = LoginDTO(email: Option<string>, password: Option<string>)

  /** The address check behind `@Email`, applied to non-empty values only. */
  type EmailFormat = string -> bool

  const MinPasswordLength := 6

  const TitleBlank := FieldError("title", "Title cannot be blank")
  const DescriptionBlank := FieldError("description", "Description cannot be blank")
  const NameBlank := FieldError("name", "Nome não pode estar em branco")
  const EmailBlank := FieldError("email", "Email não pode estar em branco")
  const EmailMalformed := FieldError("email", "Email deve ser válido")
  const PasswordBlank := FieldError("password", "Senha não pode estar em branco")
  const PasswordShort := FieldError("password", "Senha deve ter pelo menos 6 caracteres")

  /** `@NotBlank`: present and not only whitespace. */
  predicate NotBlank(s: Option<string>) {
    s.Some? && !IsBlank(s.value)
  }

  /** `@Email`: a null or empty value passes; any other value must have the address format. */
  predicate EmailOk(s: Option<string>, format: EmailFormat) {
    s.None? || |s.value| == 0 || format(s.value)
  }

  /** `@Size(min = 6)`: a null value passes; any other value needs at least 6 UTF-16 code units,
      the length `CharSequence.length()` reports. */
  predicate LongEnough(s: Option<string>) {
    s.None? || Utf16Length(s.value) >= MinPasswordLength
  }

  function Check(ok: bool, e: FieldError): seq<FieldError> {
    if ok then [] else [e]
  }

  /** The constraints of `NoteDTO`: each field is checked on its own. */
  function ValidateNote(d: NoteDTO): (errs: seq<FieldError>)
    ensures TitleBlank in errs <==> !NotBlank(d.title)
    ensures DescriptionBlank in errs <==> !NotBlank(d.description)
    ensures forall e :: e in errs ==> e == TitleBlank || e == DescriptionBlank
  {
    Check(NotBlank(d.title), TitleBlank) + Check(NotBlank(d.description), DescriptionBlank)
  }

  /** The constraints of `UserDTO`. */
  function ValidateUser(d: UserDTO, format: EmailFormat): (errs: seq<FieldError>)
    ensures NameBlank in errs <==> !NotBlank(d.name)
    ensures EmailBlank in errs <==> !NotBlank(d.email)
    ensures EmailMalformed in errs <==> !EmailOk(d.email, format)
    ensures PasswordBlank in errs <==> !NotBlank(d.password)
    ensures PasswordShort in errs <==> !LongEnough(d.password)
    ensures forall e :: e in errs ==>
      e in {NameBlank, EmailBlank, EmailMalformed, PasswordBlank, PasswordShort}
  {
    Check(NotBlank(d.name), NameBlank)
    + Check(NotBlank(d.email), EmailBlank)
    + Check(EmailOk(d.email, format), EmailMalformed)
    + Check(NotBlank(d.password), PasswordBlank)
    + Check(LongEnough(d.password), PasswordShort)
  }

  /** The constraints of `LoginDTO`: no minimum password length. */
  function ValidateLogin(d: LoginDTO, format: EmailFormat): (errs: seq<FieldError>)
    ensures EmailBlank in errs <==> !NotBlank(d.email)
    ensures EmailMalformed in errs <==> !EmailOk(d.email, format)
    ensures PasswordBlank in errs <==> !NotBlank(d.password)
    ensures forall e :: e in errs ==> e in {EmailBlank, EmailMalformed, PasswordBlank}
  {
    Check(NotBlank(d.email), EmailBlank)
    + Check(EmailOk(d.email, format), EmailMalformed)
    + Check(NotBlank(d.password), PasswordBlank)
  }

  /** A body that passes `UserDTO` validation carries a password of at least 6 characters,
      so it is never empty. */
  lemma {:induction false} ValidUserHasUsablePassword(d: UserDTO, format: EmailFormat)
    requires ValidateUser(d, format) == []
    ensures d.password.Some? && Utf16Length(d.password.value) >= MinPasswordLength
    ensures |d.password.value| >= MinPasswordLength / 2
    ensures d.name.Some? && d.email.Some?
  {
    assert PasswordBlank !in ValidateUser(d, format);
    assert PasswordShort !in ValidateUser(d, format);
    assert NameBlank !in ValidateUser(d, format);
    assert EmailBlank !in ValidateUser(d, format);
  }

  /** Six UTF-16 code units meet the minimum and five do not; for text inside the Basic
      Multilingual Plane that is six characters against five. */
  lemma SizeBoundary(p: string)
    ensures Utf16Length(p) == 6 ==> LongEnough(Some(p))
    ensures Utf16Length(p) == 5 ==> !LongEnough(Some(p))
    ensures (forall i :: 0 <= i < |p| ==> !IsAstral(p[i])) ==> (LongEnough(Some(p)) <==> |p| >= 6)
  {
  }

  /** Characters outside the Basic Multilingual Plane count twice: three emoji make a password
      long enough, although only three characters long. */
  lemma {:induction false} AstralCharactersCountTwice()
    ensures LongEnough(Some("\U{1F600}\U{1F600}\U{1F600}"))
  {
    var p := "\U{1F600}\U{1F600}\U{1F600}";
    assert forall i :: 0 <= i < |p| ==> IsAstral(p[i]);
  }

  /** A short, non-blank password is accepted at login but refused at registration. */
  lemma {:induction false} LoginHasNoMinimumLength(email: Option<string>, p: string, format: EmailFormat)
    requires !IsBlank(p) && Utf16Length(p) < MinPasswordLength
    ensures PasswordBlank !in ValidateLogin(LoginDTO(email, Some(p)), format)
    ensures PasswordShort !in ValidateLogin(LoginDTO(email, Some(p)), format)
    ensures PasswordShort in ValidateUser(UserDTO(Some("n"), email, Some(p)), format)
  {
    assert PasswordShort !in {EmailBlank, EmailMalformed, PasswordBlank};
  }

  /** Whitespace-only titles are blank: `"   "` fails like `""` and a missing title. */
  lemma WhitespaceTitleIsBlank(description: Option<string>)
    ensures TitleBlank in ValidateNote(NoteDTO(Some("   "), description))
    ensures TitleBlank in ValidateNote(NoteDTO(Some(""), description))
    ensures TitleBlank in ValidateNote(NoteDTO(None, description))
  {
    assert IsBlank("   ");
  }
}
