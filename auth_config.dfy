/**
 * The route guard `callbacks.authorized` of the authentication configuration: a request for a
 * path under "/dashboard" needs a signed-in user; every other path is open.
 */
module AuthConfig {
  import opened Domain

  /** The signed-in user as the session carries it; any present object counts as logged in. */
  datatype SignedInUser = SignedInUser(id: Option<string>, email: Option<string>, name: Option<string>)

  /** The `auth` argument: the session, whose `user` may be absent. */
  datatype AuthSession = AuthSession(user: Option<SignedInUser>)

  const DashboardPrefix: string := "/dashboard"

  /** `String.prototype.startsWith`, compared character by character. */
  function StartsWith(s: string, prefix: string): (b: bool)
    ensures b <==> |prefix| <= |s| && s[..|prefix|] == prefix
  {
    if prefix == [] then true
    else if s == [] || s[0] != prefix[0] then false
    else
      var rest := StartsWith(s[1..], prefix[1..]);
      assert (|prefix| <= |s| && s[..|prefix|] == prefix) <==> (|prefix[1..]| <= |s[1..]| && s[1..][..|prefix[1..]|] == prefix[1..]) by {
        if |prefix| <= |s| {
          assert s[..|prefix|] == [s[0]] + s[1..][..|prefix[1..]|];
          assert prefix == [prefix[0]] + prefix[1..];
        }
      }
      rest
  }

  /** `!!auth?.user` */
  predicate IsLoggedIn(auth: Option<AuthSession>) {
    auth.Some? && auth.value.user.Some?
  }

  /**
   * The guard: true lets the request through, false sends it to the sign-in page. Only a path
   * that begins with "/dashboard" requested without a signed-in user is refused.
   */
  function Authorized(auth: Option<AuthSession>, pathname: string): (allowed: bool)
    ensures !allowed <==> && |DashboardPrefix| <= |pathname| && pathname[..|DashboardPrefix|] == DashboardPrefix
                          && (auth.None? || auth.value.user.None?)
  {
    if StartsWith(pathname, DashboardPrefix) then IsLoggedIn(auth) else true
  }

  /** A path outside the dashboard is open to everybody, logged in or not. */
  lemma OutsideDashboardIsOpen(auth: Option<AuthSession>, pathname: string)
    requires !(|DashboardPrefix| <= |pathname| && pathname[..|DashboardPrefix|] == DashboardPrefix)
    ensures Authorized(auth, pathname)
  {
  }

  /** A logged-in user is let through on every path. */
  lemma LoggedInNeverRefused(auth: Option<AuthSession>, pathname: string)
    requires auth.Some? && auth.value.user.Some?
    ensures Authorized(auth, pathname)
  {
  }

  /** Every path that extends "/dashboard" is refused without a user, and allowed with one. */
  lemma DashboardNeedsUser(auth: Option<AuthSession>, rest: string)
    ensures Authorized(auth, DashboardPrefix + rest) <==> auth.Some? && auth.value.user.Some?
  {
    assert (DashboardPrefix + rest)[..|DashboardPrefix|] == DashboardPrefix;
  }

  /**
   * The guard is a plain prefix test on the path: without a user, it refuses exactly the paths
   * that extend "/dashboard".
   */
  lemma GuardIsPrefixTest(pathname: string)
    ensures !Authorized(None, pathname) <==> exists rest :: pathname == DashboardPrefix + rest
  {
    var n := |DashboardPrefix|;
    if n <= |pathname| && pathname[..n] == DashboardPrefix {
      assert pathname == DashboardPrefix + pathname[n..];
    }
    forall rest | pathname == DashboardPrefix + rest
      ensures !Authorized(None, pathname)
    {
      DashboardNeedsUser(None, rest);
    }
  }

  /** "/dashboard/x" and "/dashboardx" are both guarded; "/dash" and the sign-in page are not. */
  lemma GuardExamples()
    ensures !Authorized(None, "/dashboard/x") && !Authorized(None, "/dashboardx") && !Authorized(None, "/dashboard")
    ensures Authorized(None, "/dash") && Authorized(None, "/") && Authorized(None, "/auth/signin")
  {
    DashboardNeedsUser(None, "/x");
    DashboardNeedsUser(None, "x");
    DashboardNeedsUser(None, "");
    assert DashboardPrefix + "/x" == "/dashboard/x";
    assert DashboardPrefix + "x" == "/dashboardx";
    assert DashboardPrefix + "" == "/dashboard";
    assert "/auth/signin"[1] != DashboardPrefix[1];
  }
}
