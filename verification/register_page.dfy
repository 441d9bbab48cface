/**
 * The register page: its form schema (username and name), the pre-fill of
 * the username from the query string, the POST body it sends and the client
 * action it takes on the POST outcome.
 */
module RegisterPage {
  import opened Wrappers
  import opened JsText
  import opened ZodString
  import UsernameRegex

  const UsernameTooShortMessage := "O nome de usuário deve ter no mínimo 3 caracteres."
  const UsernameCharsetMessage := "O nome de usuário deve conter apenas letras e hifens."
  const NameTooShortMessage := "O nome deve ter no mínimo 3 caracteres."

  /** Where a successful registration continues. */
  const ConnectCalendarPath := "/register/connect-calendar"

  const UsernameSchema := Schema([Min(3, UsernameTooShortMessage), UsernamePattern(UsernameCharsetMessage)], true)
  const NameSchema := Schema([Min(3, NameTooShortMessage)], false)

  /** The raw text of the two inputs. */
  datatype Fields = Fields(username: string, name: string)

  /** What the schema hands to the submit handler. */
  datatype RegisterData = RegisterData(username: string, name: string)

  /** The issues zod reports per field; an empty list means the field passed. */
  datatype FormErrors = FormErrors(username: seq<Issue>, name: seq<Issue>)

  /** The JSON body of `POST /users`. */
  datatype PostBody = PostBody(name: string, username: string)

  /**
   * How the `api.post` promise settled: fulfilled; rejected with an
   * `AxiosError` whose `response.data.error` is given when present; or
   * rejected with anything else.
   */
  datatype PostOutcome = Resolved | AxiosRejected(dataError: Option<string>) | OtherRejected

  /** What the page does next. Logging is not an action. */
  datatype ClientAction = Navigate(path: string) | Alert(message: string) | NoAction

  /** The username field of `registerFormSchema`. */
  function ValidateUsername(s: string): (r: Result<string, seq<Issue>>)
    ensures r.Success? <==> UsernameRegex.ValidUsername(s)
    ensures r.Success? ==> r.value == ToLower(s)
    ensures r.Failure? ==>
      r.error ==
      (if Utf16Length(s) < 3 then [TooSmall(3, UsernameTooShortMessage)] else [])
      + (if UsernameRegex.AllUsernameChars(s) && s != [] then [] else [InvalidString(UsernameCharsetMessage)])
  {
    ZodString.MinThenPattern(3, UsernameTooShortMessage, UsernameCharsetMessage, s);
    Parse(UsernameSchema, s)
  }

  /** An accepted username comes back lower-cased, as long as the input, and re-validates to itself. */
  lemma NormalisedUsername(s: string)
    requires ValidateUsername(s).Success?
    ensures var u := ValidateUsername(s).value;
      && |u| == |s|
      && NoAsciiUpper(u)
      && ValidateUsername(u) == Success(u)
  {
    var u := ToLower(s);
    UsernameRegex.MatchesLowered(s);
    assert Utf16Length(u) == |u|;
    ToLowerNormalises(s);
    ToLowerIdempotent(s);
  }

  /** The name field: a length floor and nothing else, the text passed through untouched. */
  function ValidateName(s: string): (r: Result<string, seq<Issue>>)
    ensures r.Success? <==> Utf16Length(s) >= 3
    ensures r.Success? ==> r.value == s
    ensures r.Failure? ==>
      r.error == [TooSmall(3, NameTooShortMessage)]
  {
    var r := Parse(NameSchema, s);
    assert r.Failure? ==> forall e :: e in r.error ==> e == TooSmall(3, NameTooShortMessage);
    assert r.Failure? ==> |r.error| <= 1;
    r
  }

  /** `registerFormSchema` over both fields: every field is checked, issues are kept per field. */
  function ParseForm(f: Fields): (r: Result<RegisterData, FormErrors>)
    ensures r.Success? <==> UsernameRegex.ValidUsername(f.username) && Utf16Length(f.name) >= 3
    ensures r.Success? ==> r.value == RegisterData(ToLower(f.username), f.name)
    ensures r.Failure? ==> (r.error.username == [] <==> UsernameRegex.ValidUsername(f.username))
    ensures r.Failure? ==> (r.error.name == [] <==> Utf16Length(f.name) >= 3)
    ensures r.Failure? ==> r.error.name == (if Utf16Length(f.name) < 3 then [TooSmall(3, NameTooShortMessage)] else [])
    ensures r.Failure? ==>
      r.error.username ==
      (if Utf16Length(f.username) < 3 then [TooSmall(3, UsernameTooShortMessage)] else [])
      + (if UsernameRegex.AllUsernameChars(f.username) && f.username != [] then [] else [InvalidString(UsernameCharsetMessage)])
  {
    match (ValidateUsername(f.username), ValidateName(f.name))
    case (Success(u), Success(n)) => Success(RegisterData(u, n))
    case (Success(_), Failure(ne)) => Failure(FormErrors([], ne))
    case (Failure(ue), Success(_)) => Failure(FormErrors(ue, []))
    case (Failure(ue), Failure(ne)) => Failure(FormErrors(ue, ne))
  }

  /**
   * The request `handleSubmit(handleRegister)` sends: none when the schema
   * rejects the fields, otherwise exactly the name and the normalised username.
   */
  function RequestBody(f: Fields): (r: Option<PostBody>)
    ensures r.Some? <==> UsernameRegex.ValidUsername(f.username) && Utf16Length(f.name) >= 3
    ensures r.Some? ==> r.value.name == f.name && r.value.username == ToLower(f.username)
  {
    match ParseForm(f)
    case Success(data) => Some(PostBody(data.name, data.username))
    case Failure(_) => None
  }

  /**
   * The effect on the form when the query carries `username`: a truthy
   * (non-empty) value is copied into the field verbatim; no validation or
   * lower-casing happens here.
   */
  function Prefill(query: Option<string>, f: Fields): (r: Fields)
    ensures r.name == f.name
    ensures query.Some? && query.value != "" ==> r.username == query.value
    ensures query.None? || query.value == "" ==> r == f
  {
    match query
    case Some(q) => if q != "" then f.(username := q) else f
    case None => f
  }

  /**
   * `handleRegister` after the POST settles: navigate on success, alert the
   * server's `error` text when the rejection carries a non-empty one, and do
   * nothing otherwise.
   */
  function HandleRegister(outcome: PostOutcome): (a: ClientAction)
    ensures a.Navigate? <==> outcome.Resolved?
    ensures a.Navigate? ==> a.path == ConnectCalendarPath
    ensures a.Alert? <==> outcome.AxiosRejected? && outcome.dataError.Some? && outcome.dataError.value != ""
    ensures a.Alert? ==> a.message == outcome.dataError.value
  {
    match outcome
    case Resolved => Navigate(ConnectCalendarPath)
    case AxiosRejected(Some(m)) => if m != "" then Alert(m) else NoAction
    case AxiosRejected(None) => NoAction
    case OtherRejected => NoAction
  }

  /** A lower-case username is accepted as it is. */
  lemma LowerUsernameExample(s: string)
    requires s == "joao-silva"
    ensures ValidateUsername(s) == Success(s)
  {
    assert UsernameRegex.AllUsernameChars(s);
    assert forall i :: 0 <= i < |s| ==> s[i] as int < 0x1_0000;
    assert NoAsciiUpper(s);
    ToLowerNormalises(s);
  }

  /** A capitalised username is accepted and lower-cased. */
  lemma CapitalisedUsernameExample(s: string)
    requires s == "JOAO-SILVA"
    ensures ValidateUsername(s) == Success("joao-silva")
  {
    assert UsernameRegex.AllUsernameChars(s);
    assert forall i :: 0 <= i < |s| ==> s[i] as int < 0x1_0000;
    assert UsernameRegex.ValidUsername(s);
    var lower := ToLower(s);
    assert forall i :: 0 <= i < |s| ==> lower[i] == "joao-silva"[i];
    assert lower == "joao-silva";
  }

  /** A two-letter username fails the length check only. */
  lemma ShortUsernameExample(s: string)
    requires s == "jo"
    ensures ValidateUsername(s) == Failure([TooSmall(3, UsernameTooShortMessage)])
  {
    assert UsernameRegex.AllUsernameChars(s);
    assert forall i :: 0 <= i < |s| ==> s[i] as int < 0x1_0000;
    assert Utf16Length(s) == 2;
    var r := ValidateUsername(s);
    assert r.Failure?;
    assert r.error == [TooSmall(3, UsernameTooShortMessage)] + [];
    assert r.error == [TooSmall(3, UsernameTooShortMessage)];
    assert r == Failure([TooSmall(3, UsernameTooShortMessage)]);
  }

  /** An underscore fails the pattern only. */
  lemma UnderscoreUsernameExample(s: string)
    requires s == "joao_silva"
    ensures ValidateUsername(s) == Failure([InvalidString(UsernameCharsetMessage)])
  {
    assert !UsernameRegex.IsUsernameChar(s[4]);
    assert forall i :: 0 <= i < |s| ==> s[i] as int < 0x1_0000;
    assert Utf16Length(s) == 10;
    var r := ValidateUsername(s);
    assert r.Failure?;
    assert r.error == [] + [InvalidString(UsernameCharsetMessage)];
    assert r.error == [InvalidString(UsernameCharsetMessage)];
    assert r == Failure([InvalidString(UsernameCharsetMessage)]);
  }

  /** Two characters outside the Basic Multilingual Plane are four code units, so the name passes. */
  lemma NameCountsCodeUnits()
    ensures ValidateName("\U{1F600}\U{1F600}") == Success("\U{1F600}\U{1F600}")
    ensures ValidateName("Al").Failure?
  {
  }
}
