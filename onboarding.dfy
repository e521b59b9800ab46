/**
 * The `useOnboardingRedirect` hook: a signed-in user without a username is
 * sent to the onboarding page, which is told where to return.
 */
module OnboardingRedirect {
  import opened Options

  /** The part of the signed-in user the hook looks at. */
  datatype ClientUser = ClientUser(username: Option<string>)

  const OnboardingPath := "/onboarding"

  /** `!user.username`: absent or empty. */
  predicate LacksUsername(u: ClientUser) { u.username.None? || u.username.value == [] }

  /**
   * Where the effect navigates, for the current user, the route's `pathname`
   * and the full `asPath`; `None` when it does not navigate.
   */
  function RedirectTarget(user: Option<ClientUser>, pathname: string, asPath: string): (r: Option<string>)
    ensures r.Some? <==> user.Some? && LacksUsername(user.value) && pathname != OnboardingPath
    ensures r.Some? ==> r.value == OnboardingPath + "?returnTo=" + asPath
  {
    match user
    case None => None
    case Some(u) =>
      if LacksUsername(u) && pathname != OnboardingPath then Some(OnboardingPath + "?returnTo=" + asPath) else None
  }

  /** The path part of a URL: everything before the first `?`. */
  function PathOf(url: string): (p: string)
    ensures |p| <= |url| && p == url[..|p|]
    ensures '?' !in p
    ensures |p| < |url| ==> url[|p|] == '?'
  {
    if url == [] || url[0] == '?' then [] else [url[0]] + PathOf(url[1..])
  }

  /** The page the hook sends the user to does not send them on again: the redirect cannot loop. */
  lemma {:induction false} RedirectDoesNotLoop(user: Option<ClientUser>, pathname: string, asPath: string)
    requires RedirectTarget(user, pathname, asPath).Some?
    ensures var target := RedirectTarget(user, pathname, asPath).value;
      PathOf(target) == OnboardingPath && RedirectTarget(user, PathOf(target), target) == None
  {
    var target := RedirectTarget(user, pathname, asPath).value;
    assert target == OnboardingPath + ("?returnTo=" + asPath);
    PathOfPrefix(OnboardingPath, "?returnTo=" + asPath);
  }

  lemma {:induction false} PathOfPrefix(p: string, rest: string)
    requires '?' !in p
    requires rest != [] && rest[0] == '?'
    ensures PathOf(p + rest) == p
  {
    if p == [] {
      assert p + rest == rest;
    } else {
      assert (p + rest)[1..] == p[1..] + rest;
      PathOfPrefix(p[1..], rest);
    }
  }
}
