/**
 * The session and local-login configuration: what the session stores for a
 * user, and the callback that checks a username and password.
 */
module Passport {
  import opened Options
  import opened Errors
  import opened Text
  import opened Users

  /** What `deserializeUser` puts on the request: only the id. */
  datatype SessionUser = SessionUser(id: int)

  /** `deserializeUser(id)`. */
  function DeserializeUser(sessionId: int): (u: SessionUser)
    ensures u.id == sessionId
  {
    SessionUser(sessionId)
  }

  /** `serializeUser(user)`: the session keeps the id, from which the session user is restored. */
  function SerializeUser(u: User): (sessionId: int)
    ensures DeserializeUser(sessionId).id == u.id
  {
    u.id
  }

  /** `findOne({ username })` without collation: the first user whose username is exactly `name`. */
  function FindByUsername(users: seq<User>, name: string): (r: Option<User>)
    ensures r.Some? ==> r.value in users && r.value.username == Some(name)
    ensures r.None? <==> forall i :: 0 <= i < |users| ==> users[i].username != Some(name)
  {
    if users == [] then None
    else if users[0].username == Some(name) then Some(users[0])
    else FindByUsername(users[1..], name)
  }

  /** What the verify callback reports: a user, a refusal (`cb(null, false)`), or an error. */
  datatype LoginOutcome = Authenticated(user: User) | Rejected | Failed(error: Error)

  /**
   * The `LocalStrategy` verify callback, given the answer of the username
   * lookup (`Err` when the lookup throws) and the password comparison
   * `matches(raw, hash)`. A stored password that is missing or empty is
   * falsy and refuses the login before any comparison.
   */
  function VerifyLocal(lookup: Result<Option<User>>, password: string, matches: (string, string) -> bool): (r: LoginOutcome)
    ensures lookup.Err? ==> r == Failed(lookup.error)
    ensures lookup.Ok? ==>
      (r.Rejected? <==>
        lookup.value.None? || lookup.value.value.password.None? || lookup.value.value.password.value == ""
        || !matches(password, lookup.value.value.password.value))
    ensures r.Authenticated? ==>
      lookup.Ok? && lookup.value.Some? && r.user == WithoutPassword(lookup.value.value)
    ensures !r.Failed? ==> lookup.Ok?
  {
    match lookup
    case Err(e) => Failed(e)
    case Ok(None) => Rejected
    case Ok(Some(existing)) =>
      if existing.password.None? || existing.password.value == "" then Rejected
      else if !matches(password, existing.password.value) then Rejected
      else Authenticated(WithoutPassword(existing))
  }

  lemma {:induction false} FindByUsernameAppended(users: seq<User>, u: User, name: string)
    requires u.username == Some(name)
    requires forall i :: 0 <= i < |users| ==> users[i].username != Some(name)
    ensures FindByUsername(users + [u], name) == Some(u)
  {
    if users == [] {
      assert users + [u] == [u];
    } else {
      assert (users + [u])[1..] == users[1..] + [u];
      FindByUsernameAppended(users[1..], u, name);
    }
  }

  /**
   * A user who has just signed up can log in with the same username and
   * password: the exact lookup finds the new user, as no earlier username
   * equals it even up to case, and the stored hash, which is never empty,
   * matches the password.
   */
  lemma LoginAfterSignUp(users: seq<User>, u: User, password: string, hash: string -> string, matches: (string, string) -> bool)
    requires u.username.Some? && u.password == Some(hash(password))
    requires FindUsernameIgnoringCase(users, u.username.value).None?
    requires hash(password) != "" && matches(password, hash(password))
    ensures VerifyLocal(Ok(FindByUsername(users + [u], u.username.value)), password, matches) == Authenticated(WithoutPassword(u))
  {
    var name := u.username.value;
    forall i | 0 <= i < |users|
      ensures users[i].username != Some(name)
    {
      assert !UsernameMatches(users[i], name);
    }
    FindByUsernameAppended(users, u, name);
  }

  /**
   * Sign-up compares usernames up to case but login compares them exactly: a
   * user registered as "Al" is refused when logging in as "al".
   */
  lemma LoginIsCaseSensitive(u: User, password: string, matches: (string, string) -> bool)
    requires u.username == Some("Al")
    ensures VerifyLocal(Ok(FindByUsername([u], "al")), password, matches) == Rejected
  {
    assert "Al"[0] != "al"[0];
    assert FindByUsername([u][1..], "al") == None;
  }
}
