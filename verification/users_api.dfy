/**
 * The `/api/users` handler over an abstract user store. The store is an
 * immutable list of users plus the next identifier to hand out; the handler
 * is a pure transition from a store and a request to the next store, the
 * response and the cookie it sets.
 */
module UsersApi {
  import opened Wrappers

  const UsernameTakenMessage := "Username already exists."
  const CookieName := "@ignitecall:userId"
  const CookiePath := "/"

  /** Seven days, in seconds. */
  const CookieMaxAge: nat := 60 * 60 * 24 * 7

  datatype User = User(id: nat, name: string, username: string)

  /** The users table, in creation order, and the fresh-identifier supply. */
  datatype Store = Store(users: seq<User>, nextId: nat)

  /** `req.body`, read as `{ name, username }`. */
  datatype Body = Body(name: string, username: string)

  datatype Request = Request(httpMethod: string, body: Body)

  /** `end()` with no body, `json({ error })`, or `json(user)`. */
  datatype ResponseBody = NoBody | ErrorJson(error: string) | UserJson(user: User)

  datatype Response = Response(status: nat, body: ResponseBody)

  datatype Cookie = Cookie(name: string, value: nat, maxAge: nat, path: string)

  /** The store after the call, the response, and the cookie set on it, if any. */
  datatype Outcome = Outcome(store: Store, response: Response, cookie: Option<Cookie>)

  /** Some stored user carries exactly this username (case and all). */
  predicate Taken(users: seq<User>, username: string)
  {
    exists i :: 0 <= i < |users| && users[i].username == username
  }

  predicate UsernamesDistinct(users: seq<User>)
  {
    forall i, j :: 0 <= i < j < |users| ==> users[i].username != users[j].username
  }

  predicate IdsDistinct(users: seq<User>)
  {
    forall i, j :: 0 <= i < j < |users| ==> users[i].id != users[j].id
  }

  /** Every stored identifier was handed out before `nextId`. */
  predicate IdsIssued(s: Store)
  {
    forall i :: 0 <= i < |s.users| ==> s.users[i].id < s.nextId
  }

  /** The store invariant: usernames and identifiers are each pairwise distinct, and `nextId` is fresh. */
  predicate Valid(s: Store)
  {
    UsernamesDistinct(s.users) && IdsDistinct(s.users) && IdsIssued(s)
  }

  /** `prisma.user.findUnique({ where: { username } })`: an exact-string lookup. */
  function FindUnique(users: seq<User>, username: string): (r: Option<User>)
    ensures r.Some? <==> Taken(users, username)
    ensures r.Some? ==> r.value in users && r.value.username == username
  {
    if users == [] then None
    else if users[0].username == username then Some(users[0])
    else
      var r := FindUnique(users[1..], username);
      assert forall i :: 1 <= i < |users| ==> users[i] == users[1..][i - 1];
      r
  }

  /** `prisma.user.create({ data: { name, username } })`: appends one user with a fresh identifier. */
  function Create(s: Store, name: string, username: string): (r: (Store, User))
    ensures r.1.name == name && r.1.username == username
    ensures r.0.users == s.users + [r.1]
    ensures IdsIssued(s) ==> IdsIssued(r.0) && forall v :: v in s.users ==> v.id != r.1.id
  {
    var u := User(s.nextId, name, username);
    (Store(s.users + [u], s.nextId + 1), u)
  }

  /** The handler: method gate, exact-match lookup, conflict, or create plus cookie. */
  function Handle(s: Store, req: Request): (out: Outcome)
    ensures req.httpMethod != "POST" ==> out == Outcome(s, Response(405, NoBody), None)
    ensures req.httpMethod == "POST" && Taken(s.users, req.body.username) ==>
      out == Outcome(s, Response(400, ErrorJson(UsernameTakenMessage)), None)
    ensures req.httpMethod == "POST" && !Taken(s.users, req.body.username) ==>
      && |out.store.users| == |s.users| + 1
      && out.store.users[..|s.users|] == s.users
      && var u := out.store.users[|s.users|];
      && u.name == req.body.name
      && u.username == req.body.username
      && (IdsIssued(s) ==> forall v :: v in s.users ==> v.id != u.id)
      && out.response == Response(201, UserJson(u))
      && out.cookie == Some(Cookie("@ignitecall:userId", u.id, 604800, "/"))
    ensures Valid(s) ==> Valid(out.store)
  {
    if req.httpMethod != "POST" then Outcome(s, Response(405, NoBody), None)
    else if FindUnique(s.users, req.body.username).Some? then
      Outcome(s, Response(400, ErrorJson(UsernameTakenMessage)), None)
    else
      var (s', u) := Create(s, req.body.name, req.body.username);
      assert s'.users[..|s.users|] == s.users;
      Outcome(s', Response(201, UserJson(u)), Some(Cookie(CookieName, u.id, CookieMaxAge, CookiePath)))
  }

  /** Requests handled one after another: the final store and every response in order. */
  function HandleAll(s: Store, reqs: seq<Request>): (r: (Store, seq<Response>))
    ensures |r.1| == |reqs|
    ensures forall k :: 0 <= k < |reqs| ==> r.1[k].status in {201, 400, 405}
    ensures forall k :: 0 <= k < |reqs| && reqs[k].httpMethod != "POST" ==> r.1[k] == Response(405, NoBody)
    ensures |s.users| <= |r.0.users| <= |s.users| + |reqs|
    decreases |reqs|
  {
    if reqs == [] then (s, [])
    else
      var out := Handle(s, reqs[0]);
      var rest := HandleAll(out.store, reqs[1..]);
      assert forall k :: 1 <= k < |reqs| ==> reqs[k] == reqs[1..][k - 1];
      (rest.0, [out.response] + rest.1)
  }

  /** Under sequential calls the store never holds two users with the same username. */
  lemma {:induction false} HandleAllKeepsUsernamesDistinct(s: Store, reqs: seq<Request>)
    requires Valid(s)
    ensures Valid(HandleAll(s, reqs).0)
    ensures UsernamesDistinct(HandleAll(s, reqs).0.users)
    decreases |reqs|
  {
    if reqs != [] {
      HandleAllKeepsUsernamesDistinct(Handle(s, reqs[0]).store, reqs[1..]);
    }
  }

  /** Users are only ever added: every earlier user stays, in place. */
  lemma {:induction false} HandleAllOnlyAppends(s: Store, reqs: seq<Request>)
    ensures |s.users| <= |HandleAll(s, reqs).0.users|
    ensures HandleAll(s, reqs).0.users[..|s.users|] == s.users
    decreases |reqs|
  {
    if reqs != [] {
      var next := Handle(s, reqs[0]).store;
      HandleAllOnlyAppends(next, reqs[1..]);
      var final := HandleAll(s, reqs).0.users;
      assert final[..|next.users|][..|s.users|] == final[..|s.users|];
    }
  }

  /** The same POST body twice in a row: created first, rejected as a duplicate second. */
  lemma RepeatedPostConflicts(s: Store, body: Body)
    requires !Taken(s.users, body.username)
    ensures var first := Handle(s, Request("POST", body));
      && first.response.status == 201
      && var second := Handle(first.store, Request("POST", body));
      && second.response == Response(400, ErrorJson(UsernameTakenMessage))
      && second.store == first.store
      && second.cookie.None?
  {
    var first := Handle(s, Request("POST", body));
    assert first.store.users[|s.users|].username == body.username;
  }

  /** The handler checks nothing about the username: a one-letter capital is stored as sent. */
  lemma NoServerSideValidation(s: Store)
    requires s.users == []
    ensures var out := Handle(s, Request("POST", Body("", "X")));
      && out.response.status == 201
      && out.store.users == [User(s.nextId, "", "X")]
  {
  }

  /** The lookup is case-sensitive: a differently-cased username is a different one. */
  lemma LookupIsCaseSensitive(s: Store, existing: User)
    requires s.users == [existing] && existing.username == "maria"
    ensures var out := Handle(s, Request("POST", Body("Maria", "Maria")));
      && out.response.status == 201
      && |out.store.users| == 2
      && out.store.users[0].username == "maria"
      && out.store.users[1].username == "Maria"
  {
    assert !Taken(s.users, "Maria") by {
      assert "maria"[0] != "Maria"[0];
    }
  }
}
