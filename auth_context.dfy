/** `AuthContext.jsx`: the browser's authentication state and the stored
    token. `jwtDecode` is a parameter that fails (`None`) on a token it
    cannot read; it does not check signatures, and neither does the model.
    Local storage holds one slot, the `token` key. */
module AuthContext {
  import opened Common
  import opened AuthRoutes

  /** The `user` object: name, email and role. */
  datatype UserInfo = UserInfo(name: string, email: string, role: string)

  /** The context's values and the stored token. */
  datatype AuthView = AuthView(
    isAuthenticated: bool, role: Option<string>, userId: Option<Id>, user: Option<UserInfo>,
    loading: bool, storedToken: Option<string>)

  /** The state before the startup effect has run. */
  function Initial(stored: Option<string>): (v: AuthView)
    ensures !v.isAuthenticated && v.role.None? && v.userId.None? && v.user.None? && v.loading
    ensures v.storedToken == stored
  {
    AuthView(false, None, None, None, true, stored)
  }

  /** The state `loginUser`-style assignments give for a decoded token. */
  function SignedIn(v: AuthView, p: TokenPayload, role: string): AuthView {
    v.(isAuthenticated := true, role := Some(role), userId := Some(p.uid),
       user := Some(UserInfo(p.name, p.email, role)))
  }

  /** The startup effect: a stored token that decodes signs in with the
      token's own uid and role; one that does not is removed; an empty or
      missing one changes nothing. Loading ends in every case. */
  function Startup(v: AuthView, decode: string -> Option<TokenPayload>): (r: AuthView)
    ensures !r.loading
    ensures (v.storedToken.None? || v.storedToken == Some("")) ==> r == v.(loading := false)
    ensures v.storedToken.Some? && v.storedToken.value != "" && decode(v.storedToken.value).None? ==>
              r == v.(loading := false, storedToken := None)
    ensures v.storedToken.Some? && v.storedToken.value != "" && decode(v.storedToken.value).Some? ==>
              var p := decode(v.storedToken.value).value;
              && r.isAuthenticated && r.userId == Some(p.uid) && r.role == Some(p.role)
              && r.user == Some(UserInfo(p.name, p.email, p.role)) && r.storedToken == v.storedToken
  {
    match v.storedToken
    case None => v.(loading := false)
    case Some(t) =>
      if t == "" then v.(loading := false)
      else match decode(t)
        case None => v.(loading := false, storedToken := None)
        case Some(p) => SignedIn(v, p, p.role).(loading := false)
  }

  /** `loginUser(token, roleValue)`: the token is stored first; the role
      comes from the argument, not from the token. A token that does not
      decode makes the call throw after the store. */
  function LoggedIn(v: AuthView, token: string, roleValue: string, decode: string -> Option<TokenPayload>): (r: AuthView)
    ensures r.storedToken == Some(token) && r.loading == v.loading
    ensures decode(token).None? ==> r == v.(storedToken := Some(token))
    ensures decode(token).Some? ==>
              && r.isAuthenticated && r.role == Some(roleValue) && r.userId == Some(decode(token).value.uid)
              && r.user == Some(UserInfo(decode(token).value.name, decode(token).value.email, roleValue))
  {
    match decode(token)
    case None => v.(storedToken := Some(token))
    case Some(p) => SignedIn(v.(storedToken := Some(token)), p, roleValue)
  }

  /** `logoutUser()`: the token is removed and every field is cleared. */
  function LoggedOut(v: AuthView): (r: AuthView)
    ensures r == Initial(None).(loading := v.loading)
    ensures !r.isAuthenticated && r.storedToken.None?
  {
    AuthView(false, None, None, None, v.loading, None)
  }

  /** Logging out after logging in leaves nothing of the session, whatever
      came before. */
  lemma LoginThenLogout(v: AuthView, token: string, roleValue: string, decode: string -> Option<TokenPayload>)
    ensures LoggedOut(LoggedIn(v, token, roleValue, decode)) == LoggedOut(v)
    ensures LoggedOut(LoggedIn(v, token, roleValue, decode)).storedToken.None?
  {
  }

  /** After a login whose role argument is the token's own role (as the
      server's login and register replies make it), reloading the page
      restores the same session from the stored token. */
  lemma ReloadRestoresLogin(v: AuthView, token: string, decode: string -> Option<TokenPayload>)
    requires token != "" && decode(token).Some?
    ensures var after := LoggedIn(v, token, decode(token).value.role, decode);
            var reloaded := Startup(Initial(after.storedToken), decode);
            reloaded == after.(loading := false)
  {
    var p := decode(token).value;
    var after := LoggedIn(v, token, p.role, decode);
    assert after == AuthView(true, Some(p.role), Some(p.uid), Some(UserInfo(p.name, p.email, p.role)),
                             v.loading, Some(token));
  }

  /** The reply of the server's login route, signed into the browser,
      gives the signed-in user's id and role. */
  lemma ServerSessionSignsIn(v: AuthView, s: Session, token: string, decode: string -> Option<TokenPayload>)
    requires decode(token) == Some(s.token) && s.role == s.token.role
    ensures var r := LoggedIn(v, token, s.role, decode);
            r.isAuthenticated && r.userId == Some(s.token.uid) && r.role == Some(s.token.role)
  {
  }

  /** The provider's state. */
  class AuthProvider {
    var isAuthenticated: bool
    var role: Option<string>
    var userId: Option<Id>
    var user: Option<UserInfo>
    var loading: bool
    /** Local storage's `token` entry. */
    var storedToken: Option<string>

    function View(): AuthView
      reads this
    {
      AuthView(isAuthenticated, role, userId, user, loading, storedToken)
    }

    /** The initial `useState` values, over what local storage holds. */
    constructor (stored: Option<string>)
      ensures View() == Initial(stored)
    {
      isAuthenticated := false;
      role := None;
      userId := None;
      user := None;
      loading := true;
      storedToken := stored;
    }

    /** The mount effect. */
    method Restore(decode: string -> Option<TokenPayload>)
      modifies this
      ensures View() == Startup(old(View()), decode)
    {
      if storedToken.Some? && storedToken.value != "" {
        match decode(storedToken.value) {
          case Some(p) =>
            userId := Some(p.uid);
            role := Some(p.role);
            user := Some(UserInfo(p.name, p.email, p.role));
            isAuthenticated := true;
          case None =>
            storedToken := None;
        }
      }
      loading := false;
    }

    /** `loginUser(token, roleValue)`; `ok` is false when decoding threw. */
    method LoginUser(token: string, roleValue: string, decode: string -> Option<TokenPayload>) returns (ok: bool)
      modifies this
      ensures ok <==> decode(token).Some?
      ensures View() == LoggedIn(old(View()), token, roleValue, decode)
    {
      storedToken := Some(token);
      var decoded := decode(token);
      if decoded.None? {
        return false;
      }
      userId := Some(decoded.value.uid);
      role := Some(roleValue);
      user := Some(UserInfo(decoded.value.name, decoded.value.email, roleValue));
      isAuthenticated := true;
      ok := true;
    }

    /** `logoutUser()`. */
    method LogoutUser()
      modifies this
      ensures View() == LoggedOut(old(View()))
    {
      storedToken := None;
      isAuthenticated := false;
      role := None;
      userId := None;
      user := None;
    }
  }
}
