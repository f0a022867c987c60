/**
  The front-end authentication store: the session token and user, mirrored
  into the browser's key-value storage so that a reload can restore them.
  Storage is an abstract map; the user is stored as its JSON text, modelled
  here as the user value itself.
 */
module AuthStore {
  import opened Types

  /** The user record the login response carries; only the roles matter here. A missing roles field is `None`. */
  datatype UserData = UserData(roles: Option<seq<string>>)

  /** A storage entry: the token text, or the user's JSON (`null` included). */
  datatype Stored = TokenText(text: string) | UserJson(user: Option<UserData>)

  datatype AuthState = AuthState(token: Option<string>, user: Option<UserData>, storage: map<string, Stored>)

  const TokenKey: string := "token"
  const UserKey: string := "user"

  /**
    The store's initial state read from storage: an empty or missing token
    reads as null, a missing user reads as null.
   */
  function Init(storage: map<string, Stored>): (s: AuthState)
    ensures s.storage == storage
    ensures s.token.Some? <==> TokenKey in storage && storage[TokenKey].TokenText? && storage[TokenKey].text != ""
    ensures s.token.Some? ==> s.token.value == storage[TokenKey].text
    ensures TokenKey in storage && storage[TokenKey].TokenText? && storage[TokenKey].text != "" ==> s.token.Some?
    ensures UserKey in storage && storage[UserKey].UserJson? ==> s.user == storage[UserKey].user
    ensures UserKey !in storage ==> s.user.None?
  {
    var token :=
      if TokenKey in storage && storage[TokenKey].TokenText? && storage[TokenKey].text != ""
      then Some(storage[TokenKey].text) else None;
    var user :=
      if UserKey in storage && storage[UserKey].UserJson? then storage[UserKey].user else None;
    AuthState(token, user, storage)
  }

  /**
    `isAuthenticated`: a token and a user are both present; a user without a
    token, whatever roles it holds, is not authenticated.
   */
  predicate IsAuthenticated(s: AuthState): (b: bool)
    ensures s.token.None? ==> !b
    ensures s.user.None? ==> !b
    ensures s.token.Some? && s.user.Some? ==> b
  {
    s.token.Some? && s.user.Some?
  }

  /** `hasRole`: false without a user or without a roles list, otherwise membership in the roles. */
  function HasRole(s: AuthState, role: string): (b: bool)
    ensures s.user.None? ==> !b
    ensures s.user.Some? && s.user.value.roles.None? ==> !b
    ensures s.user.Some? && s.user.value.roles.Some? ==> (b <==> role in s.user.value.roles.value)
  {
    match s.user
    case None => false
    case Some(u) =>
      match u.roles
      case None => false
      case Some(roles) => role in roles
  }

  /** `setToken`: replaces the token and mirrors it into storage; the user is untouched. */
  function SetToken(s: AuthState, t: string): (s': AuthState)
    ensures s'.token == Some(t) && s'.user == s.user
    ensures s'.storage == s.storage[TokenKey := TokenText(t)]
  {
    AuthState(Some(t), s.user, s.storage[TokenKey := TokenText(t)])
  }

  /** `setUser`: replaces the user and mirrors it into storage; the token is untouched. */
  function SetUser(s: AuthState, u: Option<UserData>): (s': AuthState)
    ensures s'.user == u && s'.token == s.token
    ensures s'.storage == s.storage[UserKey := UserJson(u)]
  {
    AuthState(s.token, u, s.storage[UserKey := UserJson(u)])
  }

  /** `logout`: clears token and user and removes both storage entries, leaving other entries alone. */
  function Logout(s: AuthState): (s': AuthState)
    ensures !IsAuthenticated(s')
    ensures s'.token.None? && s'.user.None?
    ensures TokenKey !in s'.storage && UserKey !in s'.storage
    ensures forall k :: k in s.storage && k != TokenKey && k != UserKey ==> k in s'.storage && s'.storage[k] == s.storage[k]
    ensures forall k :: k in s'.storage ==> k in s.storage
  {
    AuthState(None, None, s.storage - {TokenKey, UserKey})
  }

  /** A user alone does not authenticate while the token is null. */
  lemma SetUserAloneDoesNotAuthenticate(s: AuthState, u: Option<UserData>)
    requires s.token.None?
    ensures !IsAuthenticated(SetUser(s, u))
  {
  }

  /** After `setToken` and `setUser`, a reload restores the same session. */
  lemma ReloadRestoresSession(s: AuthState, t: string, u: Option<UserData>)
    requires t != ""
    ensures Init(SetUser(SetToken(s, t), u).storage).token == Some(t)
    ensures Init(SetUser(SetToken(s, t), u).storage).user == u
    ensures IsAuthenticated(Init(SetUser(SetToken(s, t), u).storage)) <==> u.Some?
  {
    assert TokenKey != UserKey;
  }

  /** After `logout`, a reload is logged out as well. */
  lemma ReloadAfterLogoutIsLoggedOut(s: AuthState)
    ensures !IsAuthenticated(Init(Logout(s).storage))
  {
  }
}
