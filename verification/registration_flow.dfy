/**
 * The pages and the handler put together: a claimed username travels to the
 * register page, the register form posts to `/api/users`, and axios turns the
 * handler's response into the outcome the page reacts to.
 */
module RegistrationFlow {
  import opened Wrappers
  import opened JsText
  import UsernameRegex
  import ClaimUsernameForm
  import RegisterPage
  import UsersApi

  /** Everything one register submit leads to. */
  datatype FlowResult = FlowResult(
    store: UsersApi.Store,
    request: Option<RegisterPage.PostBody>,
    action: RegisterPage.ClientAction,
    cookie: Option<UsersApi.Cookie>)

  /**
   * axios' default settling: a 2xx status fulfils the promise, any other
   * status rejects it with an `AxiosError` whose `response.data` is the body.
   */
  function AxiosOutcome(resp: UsersApi.Response): (r: RegisterPage.PostOutcome)
    ensures r.Resolved? <==> 200 <= resp.status < 300
    ensures r.OtherRejected? == false
    ensures r.AxiosRejected? && resp.body.ErrorJson? ==> r.dataError == Some(resp.body.error)
    ensures r.AxiosRejected? && !resp.body.ErrorJson? ==> r.dataError.None?
  {
    if 200 <= resp.status < 300 then RegisterPage.Resolved
    else
      match resp.body
      case ErrorJson(e) => RegisterPage.AxiosRejected(Some(e))
      case _ => RegisterPage.AxiosRejected(None)
  }

  /** The register form submitted against the handler, with the store as it stands. */
  function SubmitRegister(s: UsersApi.Store, f: RegisterPage.Fields): (r: FlowResult)
    ensures r.request.None? <==> !(UsernameRegex.ValidUsername(f.username) && Utf16Length(f.name) >= 3)
    ensures r.request.None? ==> r.store == s && r.action == RegisterPage.NoAction && r.cookie.None?
    ensures r.request.Some? && !UsersApi.Taken(s.users, ToLower(f.username)) ==>
      && r.store.users == s.users + [UsersApi.User(s.nextId, f.name, ToLower(f.username))]
      && r.action == RegisterPage.Navigate(RegisterPage.ConnectCalendarPath)
      && r.cookie == Some(UsersApi.Cookie(UsersApi.CookieName, s.nextId, UsersApi.CookieMaxAge, UsersApi.CookiePath))
    ensures r.request.Some? && UsersApi.Taken(s.users, ToLower(f.username)) ==>
      && r.store == s
      && r.action == RegisterPage.Alert(UsersApi.UsernameTakenMessage)
      && r.cookie.None?
    ensures UsersApi.Valid(s) ==> UsersApi.Valid(r.store)
  {
    match RegisterPage.RequestBody(f)
    case None => FlowResult(s, None, RegisterPage.NoAction, None)
    case Some(body) =>
      var out := UsersApi.Handle(s, UsersApi.Request("POST", UsersApi.Body(body.name, body.username)));
      var action := RegisterPage.HandleRegister(AxiosOutcome(out.response));
      assert !UsersApi.Taken(s.users, body.username) ==> out.store.users == s.users + [out.store.users[|s.users|]];
      FlowResult(out.store, Some(body), action, out.cookie)
  }

  /**
   * A claimed username reaches the register page intact: assuming the query
   * string decodes back to the text after `?username=`, the page pre-fills
   * exactly that text, and it is the lower-cased input and validates to itself.
   */
  lemma ClaimThenPrefill(input: string, fields: RegisterPage.Fields, decoded: string)
    requires ClaimUsernameForm.HandleClaim(input).Redirect?
    requires decoded == ClaimUsernameForm.HandleClaim(input).path[|ClaimUsernameForm.RegisterQueryPrefix|..]
    ensures decoded == ToLower(input)
    ensures RegisterPage.Prefill(Some(decoded), fields) == fields.(username := decoded)
    ensures RegisterPage.ValidateUsername(decoded) == Success(decoded)
  {
    ClaimUsernameForm.SameRuleAsRegister(input);
    RegisterPage.NormalisedUsername(input);
    assert |decoded| == |input|;
    assert |input| > 0 by {
      assert Utf16Length(input) >= 3;
    }
  }

  /**
   * Once a username went through the register form, any capitalisation of it
   * submitted again through the form is refused with the server's message:
   * uniqueness is case-insensitive only because the client lower-cases.
   */
  lemma CaseVariantRefused(s: UsersApi.Store, f: RegisterPage.Fields, g: RegisterPage.Fields)
    requires SubmitRegister(s, f).request.Some?
    requires SubmitRegister(s, g).request.Some?
    requires ToLower(f.username) == ToLower(g.username)
    ensures var second := SubmitRegister(SubmitRegister(s, f).store, g);
      && second.action == RegisterPage.Alert(UsersApi.UsernameTakenMessage)
      && second.store == SubmitRegister(s, f).store
  {
    var first := SubmitRegister(s, f);
    if !UsersApi.Taken(s.users, ToLower(f.username)) {
      assert first.store.users[|s.users|].username == ToLower(g.username);
    }
    assert UsersApi.Taken(first.store.users, ToLower(g.username));
  }

  /**
   * The server compares exact strings, so a stored lower-case username
   * (created through the form or posted directly) blocks every form submit
   * that lower-cases to it.
   */
  lemma StoredLowerCaseBlocksForm(s: UsersApi.Store, f: RegisterPage.Fields, k: nat)
    requires SubmitRegister(s, f).request.Some?
    requires k < |s.users| && s.users[k].username == ToLower(f.username)
    ensures SubmitRegister(s, f).action == RegisterPage.Alert(UsersApi.UsernameTakenMessage)
    ensures SubmitRegister(s, f).store == s
  {
    assert UsersApi.Taken(s.users, ToLower(f.username));
  }

  /** The example username is valid and lower-cases to `maria-silva`; the example name is long enough. */
  lemma MariaSilvaFields(username: string, name: string)
    requires username == "Maria-Silva" && name == "Maria Silva"
    ensures UsernameRegex.ValidUsername(username) && Utf16Length(name) >= 3
    ensures ToLower(username) == "maria-silva"
  {
    assert UsernameRegex.AllUsernameChars(username);
    assert forall i :: 0 <= i < |username| ==> username[i] as int < 0x1_0000;
    assert forall i :: 0 <= i < |name| ==> name[i] as int < 0x1_0000;
    var lower := ToLower(username);
    forall i | 0 <= i < |username|
      ensures lower[i] == "maria-silva"[i]
    {
      assert lower[i] == LowerChar(username[i]);
    }
  }

  /** A new user registered through the form: stored lower-cased, navigated onward, cookie set. */
  lemma FreshRegistrationExample(s: UsersApi.Store, username: string, name: string)
    requires s.users == []
    requires username == "Maria-Silva" && name == "Maria Silva"
    ensures var r := SubmitRegister(s, RegisterPage.Fields(username, name));
      && r.store.users == [UsersApi.User(s.nextId, "Maria Silva", "maria-silva")]
      && r.action == RegisterPage.Navigate("/register/connect-calendar")
      && r.cookie == Some(UsersApi.Cookie("@ignitecall:userId", s.nextId, 604800, "/"))
  {
    MariaSilvaFields(username, name);
    var lower := ToLower(username);
    var r := SubmitRegister(s, RegisterPage.Fields(username, name));
    assert r.request.Some?;
    assert !UsersApi.Taken(s.users, lower);
    assert r.store.users == [] + [UsersApi.User(s.nextId, name, lower)];
  }
}
