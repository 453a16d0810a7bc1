/** The application shell: who may see which route, which paths are public or
    known, and the life of the session token (restored from storage,
    refreshed near its expiry, dropped when it ends). The decoded JWT claims,
    the clock (in whole seconds), the backend replies and `t` are inputs;
    alerts and navigations are logged. */
module Session {
  import opened Js

  // ----- roles and routes -----

  /** `roles.some(role => requiredRoles.includes(role))`. */
  function HasAccess(roles: seq<string>, required: seq<string>): (b: bool)
    ensures b <==> exists i :: 0 <= i < |roles| && roles[i] in required
  {
    if roles == [] then false
    else roles[0] in required || HasAccess(roles[1..], required)
  }

  /** Without roles nothing is accessible, and access only asks whether the
      two role lists share a role: swapping them gives the same answer. */
  lemma {:induction false} HasAccessShared(roles: seq<string>, required: seq<string>)
    ensures !HasAccess([], required)
    ensures HasAccess(roles, required) == HasAccess(required, roles)
  {
    if HasAccess(roles, required) {
      var i :| 0 <= i < |roles| && roles[i] in required;
      var j :| 0 <= j < |required| && required[j] == roles[i];
      assert required[j] in roles;
    }
    if HasAccess(required, roles) {
      var j :| 0 <= j < |required| && required[j] in roles;
      var i :| 0 <= i < |roles| && roles[i] == required[j];
      assert roles[i] in required;
    }
  }

  /** The pages anyone may open. */
  predicate IsPublicRoute(path: string) {
    StartsWith(path, "/invitation") || path == "/confirmation" || StartsWith(path, "/rsvp") || path == "/"
  }

  const ValidRoutes: seq<string> := [
    "/", "/login", "/checkin", "/manual-checkin", "/participants", "/users",
    "/settings", "/admin-settings", "/confirmation"
  ]

  /** A path the application knows. */
  predicate IsValidRoute(path: string) {
    path in ValidRoutes || StartsWith(path, "/invitation") || StartsWith(path, "/rsvp")
  }

  /** The route effect's test for sending the user to `/not-found`. */
  predicate RedirectsToNotFound(path: string) {
    !IsPublicRoute(path) && path != "/login" && path != "/not-found" && !IsValidRoute(path)
  }

  /** Exactly the unknown paths other than `/not-found` itself are redirected:
      the public and login checks in front of the route test never change
      its answer. */
  lemma {:induction false} RedirectExactlyUnknown(path: string)
    ensures IsPublicRoute(path) ==> IsValidRoute(path)
    ensures RedirectsToNotFound(path) <==> !IsValidRoute(path) && path != "/not-found"
  {
    if path == "/" {
      assert ValidRoutes[0] == path;
    }
    if path == "/confirmation" {
      assert ValidRoutes[8] == path;
    }
    if path == "/login" {
      assert ValidRoutes[1] == path;
    }
  }

  /** The menu offers `/volunteers`, but that path is not a known route and is
      sent to `/not-found`. */
  lemma VolunteersPathRedirects(path: string)
    requires path == "/volunteers"
    ensures RedirectsToNotFound(path)
  {
    assert !StartsWith(path, "/invitation") by { assert path[1] != "/invitation"[1]; }
    assert !StartsWith(path, "/rsvp") by { assert path[1] != "/rsvp"[1]; }
  }

  /** The shell shows the login form instead of the page. */
  predicate ShowsLoginForm(hasToken: bool, path: string) {
    !hasToken && !IsPublicRoute(path) && path != "/login" && path != "/not-found"
  }

  /** Every known route that is neither public nor `/login` is behind the login
      form until a token exists. */
  lemma {:induction false} KnownRoutesBehindLogin(hasToken: bool, path: string)
    requires path in ValidRoutes[2..8]
    ensures ShowsLoginForm(hasToken, path) <==> !hasToken
  {
    assert path[1] != 'i' && path[1] != 'r' by {
      var k :| 0 <= k < 6 && ValidRoutes[2..8][k] == path;
    }
    assert !StartsWith(path, "/invitation") by { assert path[1] != "/invitation"[1]; }
    assert !StartsWith(path, "/rsvp") by { assert path[1] != "/rsvp"[1]; }
    assert path != "/" && path != "/confirmation" && path != "/login" && path != "/not-found" by {
      assert |path| > 1 && path[1] != 'l' && path[1] != 'n';
    }
  }

  // ----- the token -----

  /** The claims `jwtDecode` yields; a missing claim is `None`. */
  datatype Claims = Claims(exp: Option<int>, roles: Option<seq<string>>)

  const LoginUrl := "https://api.canada-ankara.com/api/admin/login"

  /** Seconds before expiry below which a refresh is requested. */
  const RefreshThreshold := 300

  /** The answer to the login request: a status below 500 with its body, or a
      thrown request (network failure or a status of 500 or more). */
  datatype LoginReply =
    | LoginAnswered(status: int, token: string, roles: Option<seq<string>>, messageKey: Option<string>)
    | LoginThrew

  /** The answer to the refresh request. */
  datatype RefreshReply =
    | Refreshed(token: string, roles: Option<seq<string>>)
    | RefreshFailed

  /** A token is still valid at `now` (`undefined > now` is false). */
  predicate Unexpired(c: Claims, now: int) {
    c.exp.Some? && c.exp.value > now
  }

  /** A refresh is due at `now` (`undefined - now < 300` is false). */
  predicate RefreshDue(c: Claims, now: int) {
    c.exp.Some? && c.exp.value - now < RefreshThreshold
  }

  class Shell {
    var token: Option<string>
    var roles: seq<string>
    /** The `token` entry of `localStorage`. */
    var stored: Option<string>
    var alerts: seq<string>
    /** The paths navigated to, oldest first. */
    var navigations: seq<string>

    /** A token in use is the stored one, and roles exist only with a token. */
    predicate Valid()
      reads this
    {
      (token.Some? ==> stored == token) && (token.None? ==> roles == [])
    }

    constructor (storedToken: Option<string>)
      ensures Valid()
      ensures token.None? && roles == [] && stored == storedToken && alerts == [] && navigations == []
    {
      token, roles, stored, alerts, navigations := None, [], storedToken, [], [];
    }

    /** `handleTimerEnd`: the session is dropped and the user sent to login. */
    method TimerEnd(t: string -> string)
      modifies this
      ensures Valid()
      ensures token.None? && roles == [] && stored.None?
      ensures alerts == old(alerts) + [t("session_expired")]
      ensures navigations == old(navigations) + ["/login"]
    {
      token := None;
      roles := [];
      stored := None;
      alerts := alerts + [t("session_expired")];
      navigations := navigations + ["/login"];
    }

    /** `initializeToken`: a stored token that decodes and has not expired is
        taken up with its roles; one that has expired or does not decode is
        removed and the user sent to login. An absent or empty entry is
        falsy and changes nothing. */
    method InitializeToken(decode: string -> Option<Claims>, now: int)
      requires Valid()
      modifies this
      ensures Valid()
      ensures !Truthy(old(stored)) ==> token == old(token) && roles == old(roles) && stored == old(stored) &&
                                       navigations == old(navigations)
      ensures Truthy(old(stored)) && decode(old(stored).value).Some? && Unexpired(decode(old(stored).value).value, now) ==>
        token == old(stored) && stored == old(stored) && roles == decode(old(stored).value).value.roles.GetOr([]) &&
        navigations == old(navigations)
      ensures Truthy(old(stored)) && (decode(old(stored).value).None? || !Unexpired(decode(old(stored).value).value, now)) ==>
        token.None? && roles == [] && stored.None? && navigations == old(navigations) + ["/login"]
      ensures alerts == old(alerts)
    {
      if !Truthy(stored) {
        return;
      }
      var claims := decode(stored.value);
      if claims.Some? && Unexpired(claims.value, now) {
        token := stored;
        roles := claims.value.roles.GetOr([]);
      } else {
        stored := None;
        token := None;
        roles := [];
        navigations := navigations + ["/login"];
      }
    }

    /** `refreshToken`: returns whether the refresh request was sent. A token
        that fails to decode, or a failed refresh, ends the session. */
    method Refresh(decode: string -> Option<Claims>, now: int, reply: RefreshReply, t: string -> string)
      returns (requested: bool)
      requires Valid()
      modifies this
      ensures Valid()
      ensures requested <==> Truthy(old(stored)) && decode(old(stored).value).Some? &&
                             RefreshDue(decode(old(stored).value).value, now)
      ensures requested && reply.Refreshed? ==>
        token == Some(reply.token) && stored == Some(reply.token) && roles == reply.roles.GetOr([]) &&
        alerts == old(alerts) && navigations == old(navigations)
      ensures (requested && reply.RefreshFailed?) || (Truthy(old(stored)) && decode(old(stored).value).None?) ==>
        token.None? && roles == [] && stored.None? &&
        alerts == old(alerts) + [t("session_expired")] && navigations == old(navigations) + ["/login"]
      ensures !requested && !(Truthy(old(stored)) && decode(old(stored).value).None?) ==>
        token == old(token) && roles == old(roles) && stored == old(stored) &&
        alerts == old(alerts) && navigations == old(navigations)
    {
      requested := false;
      if !Truthy(stored) {
        return;
      }
      var claims := decode(stored.value);
      if claims.None? {
        TimerEnd(t);
        return;
      }
      if RefreshDue(claims.value, now) {
        requested := true;
        match reply
        case Refreshed(newToken, newRoles) =>
          token := Some(newToken);
          roles := newRoles.GetOr([]);
          stored := Some(newToken);
        case RefreshFailed =>
          TimerEnd(t);
      }
    }

    /** The response interceptor: a 401 from any URL but the login URL ends
        the session. */
    method Intercept(status: int, url: string, t: string -> string)
      modifies this
      ensures status == 401 && url != LoginUrl ==>
        token.None? && roles == [] && stored.None? &&
        alerts == old(alerts) + [t("session_expired")] && navigations == old(navigations) + ["/login"]
      ensures !(status == 401 && url != LoginUrl) ==>
        token == old(token) && roles == old(roles) && stored == old(stored) &&
        alerts == old(alerts) && navigations == old(navigations)
      ensures old(Valid()) ==> Valid()
    {
      if status == 401 && url != LoginUrl {
        TimerEnd(t);
      }
    }

    /** `handleLogin`: returns whether the login request was sent. The user
        name `admin` is refused without one. */
    method Login(username: string, reply: LoginReply, t: string -> string) returns (requested: bool)
      requires Valid()
      modifies this
      ensures Valid()
      ensures requested <==> username != "admin"
      ensures username == "admin" ==>
        token == old(token) && roles == old(roles) && stored == old(stored) &&
        alerts == old(alerts) + [t("error") + ": " + t("invalid_credentials")] && navigations == old(navigations)
      ensures requested && reply.LoginAnswered? && reply.status == 200 ==>
        token == Some(reply.token) && stored == Some(reply.token) && roles == reply.roles.GetOr([]) &&
        alerts == old(alerts) && navigations == old(navigations) + ["/checkin"]
      ensures requested && !(reply.LoginAnswered? && reply.status == 200) ==>
        token.None? && roles == [] && stored.None? && navigations == old(navigations) &&
        alerts == old(alerts) + [t("error") + ": " + LoginFailureText(reply, t)]
    {
      if username == "admin" {
        alerts := alerts + [t("error") + ": " + t("invalid_credentials")];
        return false;
      }
      requested := true;
      token := None;
      roles := [];
      stored := None;
      if reply.LoginAnswered? && reply.status == 200 {
        token := Some(reply.token);
        roles := reply.roles.GetOr([]);
        stored := Some(reply.token);
        navigations := navigations + ["/checkin"];
      } else {
        alerts := alerts + [t("error") + ": " + LoginFailureText(reply, t)];
      }
    }
  }

  /** The reason shown for a failed login: invalid credentials for a 401, a
      status of 500 or more, or a thrown request; otherwise the translated
      `messageKey`, else a fixed text. */
  function LoginFailureText(reply: LoginReply, t: string -> string): (m: string)
    ensures reply.LoginThrew? ==> m == t("invalid_credentials")
    ensures reply.LoginAnswered? && (reply.status == 401 || reply.status >= 500) ==> m == t("invalid_credentials")
    ensures reply.LoginAnswered? && reply.status != 401 && reply.status < 500 && reply.messageKey.None? ==>
      m == "Giriş başarısız"
    ensures reply.LoginAnswered? && reply.status != 401 && reply.status < 500 && reply.messageKey.Some? ==>
      m == Or(Some(t(reply.messageKey.value)), "Giriş başarısız")
  {
    match reply
    case LoginThrew => t("invalid_credentials")
    case LoginAnswered(status, _, _, messageKey) =>
      if status == 401 || status >= 500 then t("invalid_credentials")
      else if messageKey.None? then "Giriş başarısız"
      else Or(Some(t(messageKey.value)), "Giriş başarısız")
  }

  /** An empty `token` entry is falsy: starting the application with it, and
      refreshing with it, neither alerts nor navigates, whatever `decode`
      would say of it. */
  method EmptyStoredTokenIgnored(decode: string -> Option<Claims>, now: int, reply: RefreshReply, t: string -> string)
    returns (requested: bool, alerts: seq<string>, navigations: seq<string>, kept: Option<string>)
    ensures !requested && alerts == [] && navigations == [] && kept == Some("")
  {
    var shell := new Shell(Some(""));
    shell.InitializeToken(decode, now);
    requested := shell.Refresh(decode, now, reply, t);
    alerts, navigations, kept := shell.alerts, shell.navigations, shell.stored;
  }
}
