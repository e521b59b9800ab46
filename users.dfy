/**
 * The user store behind the authentication endpoints: `signUp` and
 * `getAuthenticatedUser`.
 */
module Users {
  import opened Options
  import opened Errors
  import opened Text

  /**
   * A stored user. Accounts created through a social login may lack a
   * username, an email or a password; `password` holds the hash.
   */
  datatype User = User(id: int, username: Option<string>, displayName: Option<string>, email: Option<string>, password: Option<string>)

  const UsernameTaken := HttpError(409, "Username already taken")

  /** The user as sent to a client: the stored record with `password` deleted. */
  function WithoutPassword(u: User): (r: User)
    ensures r.password.None?
    ensures r.(password := u.password) == u
  {
    u.(password := None)
  }

  /** `u`'s username equals `name` up to letter case: a match under the case-insensitive collation. */
  predicate UsernameMatches(u: User, name: string)
  {
    u.username.Some? && EqualIgnoringCase(u.username.value, name)
  }

  /** `findOne({ username })` with the case-insensitive collation: the position of the first match. */
  function FindUsernameIgnoringCase(users: seq<User>, name: string): (r: Option<nat>)
    ensures r.Some? ==> r.value < |users| && UsernameMatches(users[r.value], name)
    ensures r.None? <==> forall i :: 0 <= i < |users| ==> !UsernameMatches(users[i], name)
  {
    if users == [] then None
    else if UsernameMatches(users[0], name) then Some(0)
    else match FindUsernameIgnoringCase(users[1..], name)
      case None => None
      case Some(k) => Some(k + 1)
  }

  /** `findById(id)`: the user with that id, if any. */
  function FindUserById(users: seq<User>, id: int): (r: Option<User>)
    ensures r.Some? ==> r.value in users && r.value.id == id
    ensures r.None? <==> forall i :: 0 <= i < |users| ==> users[i].id != id
  {
    if users == [] then None
    else if users[0].id == id then Some(users[0])
    else FindUserById(users[1..], id)
  }

  /** No two users have usernames that are equal up to letter case. */
  predicate UsernamesDistinct(users: seq<User>)
  {
    forall i, j :: 0 <= i < j < |users| && users[i].username.Some? ==> !UsernameMatches(users[j], users[i].username.value)
  }

  /** A successful sign-up: status 201 and the new user without password. */
  datatype SignUpResponse = SignUpResponse(status: int, user: User)

  class UserStore {
    var users: seq<User>
    var nextId: int

    ghost predicate Valid()
      reads this
    {
      && (forall i, j :: 0 <= i < j < |users| ==> users[i].id < users[j].id)
      && (forall i :: 0 <= i < |users| ==> users[i].id < nextId)
      && UsernamesDistinct(users)
    }

    constructor ()
      ensures Valid() && users == []
    {
      users := [];
      nextId := 0;
    }

    /**
     * `signUp`: refused with 409 when a username equal up to case exists, and
     * then nothing is stored. Otherwise the user is stored with its username
     * as display name and the hash of the password (never the password
     * itself), and the response, with status 201, is that user without its
     * password.
     */
    method SignUp(username: string, email: string, rawPassword: string, hash: string -> string) returns (r: Result<SignUpResponse>)
      requires Valid()
      modifies this
      ensures Valid()
      ensures FindUsernameIgnoringCase(old(users), username).Some? ==> r == Err(UsernameTaken) && users == old(users)
      ensures FindUsernameIgnoringCase(old(users), username).None? ==>
        && |users| == |old(users)| + 1
        && users[..|old(users)|] == old(users)
        && var u := users[|old(users)|];
          && u.username == Some(username)
          && u.displayName == Some(username)
          && u.email == Some(email)
          && u.password == Some(hash(rawPassword))
          && (forall i :: 0 <= i < |old(users)| ==> old(users)[i].id < u.id)
          && r == Ok(SignUpResponse(201, WithoutPassword(u)))
    {
      var existing := FindUsernameIgnoringCase(users, username);
      if existing.Some? {
        return Err(UsernameTaken);
      }
      var u := User(nextId, Some(username), Some(username), Some(email), Some(hash(rawPassword)));
      assert forall i :: 0 <= i < |users| && users[i].username.Some? ==> !UsernameMatches(u, users[i].username.value);
      users := users + [u];
      nextId := nextId + 1;
      r := Ok(SignUpResponse(201, WithoutPassword(u)));
    }

    /**
     * `getAuthenticatedUser`: 401 without a session user; otherwise the stored
     * user with the session's id, without password, or nothing when no user
     * has that id.
     */
    function GetAuthenticatedUser(sessionUserId: Option<int>): (r: Result<Option<User>>)
      reads this
      ensures sessionUserId.None? ==> r == Err(Unauthorized)
      ensures sessionUserId.Some? ==>
        && r.Ok?
        && (r.value.None? <==> forall i :: 0 <= i < |users| ==> users[i].id != sessionUserId.value)
      ensures r.Ok? && r.value.Some? ==>
        && r.value.value.id == sessionUserId.value
        && r.value.value.password.None?
        && exists i :: 0 <= i < |users| && WithoutPassword(users[i]) == r.value.value
    {
      match sessionUserId
      case None => Err(Unauthorized)
      case Some(id) =>
        match FindUserById(users, id)
        case None => Ok(None)
        case Some(u) => Ok(Some(WithoutPassword(u)))
    }
  }
}
