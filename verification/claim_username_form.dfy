/**
 * The home page's claim form: the same username schema as the register
 * page, a redirect to the register page carrying the normalised username in
 * the query string, and the annotation under the input.
 */
module ClaimUsernameForm {
  import opened Wrappers
  import opened JsText
  import opened ZodString
  import UsernameRegex
  import RegisterPage

  const UsernameTooShortMessage := "O nome de usuário deve ter no mínimo 3 caracteres."
  const UsernameCharsetMessage := "O nome de usuário deve conter apenas letras e hifens."

  /** The annotation shown while the username has no error. */
  const Hint := "Digite o nome do usuário desejado"

  /** The redirect target up to the username; the username is appended without encoding. */
  const RegisterQueryPrefix := "/register?username="

  const UsernameSchema := Schema([Min(3, UsernameTooShortMessage), UsernamePattern(UsernameCharsetMessage)], true)

  /** A submit either redirects or leaves the form with the issues it reported. */
  datatype ClaimResult = Redirect(path: string) | Rejected(issues: seq<Issue>)

  /** `claimUsernameFormSchema.username`. */
  function ValidateUsername(s: string): (r: Result<string, seq<Issue>>)
    ensures r.Success? <==> UsernameRegex.ValidUsername(s)
    ensures r.Success? ==> r.value == ToLower(s)
    ensures r.Failure? ==>
      r.error ==
      (if Utf16Length(s) < 3 then [TooSmall(3, UsernameTooShortMessage)] else [])
      + (if UsernameRegex.AllUsernameChars(s) && s != [] then [] else [InvalidString(UsernameCharsetMessage)])
  {
    ZodString.MinThenPattern(3, UsernameTooShortMessage, UsernameCharsetMessage, s);
    Parse(UsernameSchema, s)
  }

  /** The claim form and the register form accept the same usernames and produce the same value. */
  lemma SameRuleAsRegister(s: string)
    ensures ValidateUsername(s) == RegisterPage.ValidateUsername(s)
  {
  }

  /** Claim-side normalisation is idempotent: the output validates to itself. */
  lemma ClaimNormalisationIdempotent(s: string)
    requires ValidateUsername(s).Success?
    ensures var u := ValidateUsername(s).value; NoAsciiUpper(u) && ValidateUsername(u) == Success(u)
  {
    SameRuleAsRegister(s);
    RegisterPage.NormalisedUsername(s);
    SameRuleAsRegister(ValidateUsername(s).value);
  }

  /** The path `handleClaimUsername` pushes: the prefix, then the username verbatim. */
  function RedirectPath(username: string): (p: string)
    ensures |p| == |RegisterQueryPrefix| + |username|
    ensures p[..|RegisterQueryPrefix|] == RegisterQueryPrefix
    ensures p[|RegisterQueryPrefix|..] == username
  {
    RegisterQueryPrefix + username
  }

  /** `handleSubmit(handleClaimUsername)`: redirect with the normalised username, or keep the issues. */
  function HandleClaim(input: string): (r: ClaimResult)
    ensures r.Redirect? <==> UsernameRegex.ValidUsername(input)
    ensures r.Redirect? ==> |r.path| == |RegisterQueryPrefix| + |input|
    ensures r.Redirect? ==> r.path[..|RegisterQueryPrefix|] == RegisterQueryPrefix
    ensures r.Redirect? ==> r.path[|RegisterQueryPrefix|..] == ToLower(input)
    ensures r.Rejected? ==> r.issues != [] && r.issues == ValidateUsername(input).error
  {
    match ValidateUsername(input)
    case Success(u) => Redirect(RedirectPath(u))
    case Failure(issues) => Rejected(issues)
  }

  /** The issues the form holds for the username after a submit. */
  function IssuesAfter(r: ClaimResult): seq<Issue>
  {
    if r.Rejected? then r.issues else []
  }

  /**
   * The annotation text: the message of the username error when there is one
   * (the first reported issue), the hint otherwise.
   */
  function Annotation(usernameIssues: seq<Issue>): (text: string)
    ensures usernameIssues == [] ==> text == Hint
    ensures usernameIssues != [] ==> text == usernameIssues[0].message
  {
    if usernameIssues != [] then usernameIssues[0].message else Hint
  }

  /** After a submit, the hint shows exactly when the input was valid, and an error message otherwise. */
  lemma AnnotationAfterSubmit(input: string)
    ensures var text := Annotation(IssuesAfter(HandleClaim(input)));
      && (UsernameRegex.ValidUsername(input) ==> text == Hint)
      && (!UsernameRegex.ValidUsername(input) ==> text == UsernameTooShortMessage || text == UsernameCharsetMessage)
      && (text == Hint <==> UsernameRegex.ValidUsername(input))
      && (Utf16Length(input) < 3 && UsernameRegex.Matches(input) ==> text == UsernameTooShortMessage)
      && (Utf16Length(input) >= 3 && !UsernameRegex.Matches(input) ==> text == UsernameCharsetMessage)
  {
  }
}
