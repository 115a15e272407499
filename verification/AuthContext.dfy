/**
 * The client's session: what it keeps in browser storage, how it starts up
 * from that storage, and what login, logout and the start-up token check do
 * to the storage and to the signed-in user.
 */
module AuthContext {
  import opened Common
  import opened Text
  import opened Types
  import PhotoModal

  /** Browser `localStorage`: string keys to string values. */
  type Storage = map<string, string>

  const TokenKey := "token"
  const UserKey := "user"
  const LoggedInKey := "isLoggedIn"
  const UserIdKey := "userId"

  /** The four keys the session owns. */
  const AuthKeys: set<string> := {TokenKey, UserKey, LoggedInKey, UserIdKey}

  /** `getItem`: the value at `key`, or `None` for `null`. */
  function Get(s: Storage, key: string): (r: Option<string>)
    ensures r.Some? <==> key in s
    ensures r.Some? ==> r.value == s[key]
  {
    if key in s then Some(s[key]) else None
  }

  /** The storage with the session's four keys removed; nothing else is touched. */
  function Cleared(s: Storage): (r: Storage)
    ensures r.Keys == s.Keys - AuthKeys
    ensures forall k :: k in r ==> r[k] == s[k]
  {
    s - AuthKeys
  }

  /** What `JSON.parse` makes of the stored user: an error, the value `null`, or a user. */
  datatype Parsed = Malformed | JsonNull | UserValue(user: User)

  /** The session as the provider holds it. */
  datatype AuthState = AuthState(storage: Storage, user: Option<User>, isAuthenticated: bool)

  /** The signed-out state over a given storage. */
  function SignedOut(storage: Storage): (r: AuthState)
    ensures r.storage == storage && r.user.None? && !r.isAuthenticated
  {
    AuthState(storage, None, false)
  }

  /**
   * The state the provider starts in. The user is read first: no stored user (or
   * an empty one) is `null`, an unparsable one clears the four keys; the
   * authenticated flag is then read from what is left of the storage.
   */
  function Initial(stored: Storage, parse: string -> Parsed): (r: AuthState)
    ensures !Truthy(Get(stored, UserKey)) ==> r.user.None? && r.storage == stored
    ensures Truthy(Get(stored, UserKey)) && parse(stored[UserKey]).Malformed? ==>
      r.user.None? && r.storage == Cleared(stored)
    ensures Truthy(Get(stored, UserKey)) && parse(stored[UserKey]).JsonNull? ==>
      r.user.None? && r.storage == stored
    ensures Truthy(Get(stored, UserKey)) && parse(stored[UserKey]).UserValue? ==>
      r.user == Some(parse(stored[UserKey]).user) && r.storage == stored
    ensures r.isAuthenticated <==> Get(r.storage, LoggedInKey) == Some("true")
  {
    var item := Get(stored, UserKey);
    var outcome := if Truthy(item) then parse(item.value) else JsonNull;
    var storage := if outcome.Malformed? then Cleared(stored) else stored;
    var user := if outcome.UserValue? then Some(outcome.user) else None;
    AuthState(storage, user, Get(storage, LoggedInKey) == Some("true"))
  }

  /** Unreadable user data starts the application signed out, whatever the stored flag said. */
  lemma MalformedUserStartsSignedOut(stored: Storage, parse: string -> Parsed)
    requires Truthy(Get(stored, UserKey)) && parse(stored[UserKey]).Malformed?
    ensures Initial(stored, parse) == SignedOut(Cleared(stored))
  {
    assert LoggedInKey !in Cleared(stored);
  }

  /** `login`: store the token, the serialised user, the flag and the id, and sign the user in. */
  function AfterLogin(st: AuthState, token: string, u: User, serialize: User -> string): (r: AuthState)
    ensures r.storage.Keys == st.storage.Keys + AuthKeys
    ensures r.storage[TokenKey] == token && r.storage[UserKey] == serialize(u)
    ensures r.storage[LoggedInKey] == "true" && r.storage[UserIdKey] == IntToString(u.id)
    ensures forall k :: k in st.storage && k !in AuthKeys ==> r.storage[k] == st.storage[k]
    ensures r.user == Some(u) && r.isAuthenticated
  {
    var s := st.storage[TokenKey := token][UserKey := serialize(u)][LoggedInKey := "true"][UserIdKey := IntToString(u.id)];
    AuthState(s, Some(u), true)
  }

  /** `logout`: remove the four keys and sign out. */
  function AfterLogout(st: AuthState): (r: AuthState)
    ensures r.storage.Keys == st.storage.Keys - AuthKeys
    ensures forall k :: k in r.storage ==> r.storage[k] == st.storage[k]
    ensures r.user.None? && !r.isAuthenticated
  {
    SignedOut(Cleared(st.storage))
  }

  /** Logging out after logging in leaves the storage as logging out alone would: login writes nothing outside the four keys. */
  lemma LogoutUndoesLogin(st: AuthState, token: string, u: User, serialize: User -> string)
    ensures AfterLogout(AfterLogin(st, token, u, serialize)) == AfterLogout(st)
  {
    var a := AfterLogout(AfterLogin(st, token, u, serialize)).storage;
    var b := AfterLogout(st).storage;
    assert a.Keys == b.Keys;
    assert forall k :: k in a ==> a[k] == b[k];
  }

  /** A session stored by `login` is picked up again when the application restarts. */
  lemma LoginSurvivesReload(st: AuthState, token: string, u: User, serialize: User -> string, parse: string -> Parsed)
    requires serialize(u) != "" && parse(serialize(u)) == UserValue(u)
    ensures Initial(AfterLogin(st, token, u, serialize).storage, parse) == AfterLogin(st, token, u, serialize)
  {
    var s := AfterLogin(st, token, u, serialize).storage;
    assert Get(s, UserKey) == Some(serialize(u));
    assert Get(s, LoggedInKey) == Some("true");
  }

  /** How the `/api/auth/me` request ended. */
  datatype MeReply = Accepted(user: User) | Refused | Failed

  /**
   * `checkAuth`: with no stored token, sign out without a request; an accepted
   * token signs in the returned user and stores its id; a refused one is removed
   * together with the rest of the session; a failed request signs out but keeps
   * the storage.
   */
  function AfterCheck(st: AuthState, reply: MeReply): (r: AuthState)
    ensures !Truthy(Get(st.storage, TokenKey)) ==> r == SignedOut(st.storage)
    ensures Truthy(Get(st.storage, TokenKey)) && reply.Accepted? ==>
      r == AuthState(st.storage[UserIdKey := IntToString(reply.user.id)], Some(reply.user), true)
    ensures Truthy(Get(st.storage, TokenKey)) && reply.Refused? ==> r == AfterLogout(st)
    ensures Truthy(Get(st.storage, TokenKey)) && reply.Failed? ==> r == SignedOut(st.storage)
  {
    if !Truthy(Get(st.storage, TokenKey)) then SignedOut(st.storage)
    else match reply
      case Accepted(u) => AuthState(st.storage[UserIdKey := IntToString(u.id)], Some(u), true)
      case Refused => AfterLogout(st)
      case Failed => SignedOut(st.storage)
  }

  /** The header of the `/me` request, when one is sent. */
  function CheckRequest(st: AuthState): (r: Option<string>)
    ensures r.Some? <==> Truthy(Get(st.storage, TokenKey))
    ensures r.Some? ==> r.value == PhotoModal.BearerHeader(Get(st.storage, TokenKey))
  {
    var token := Get(st.storage, TokenKey);
    if Truthy(token) then Some(PhotoModal.BearerHeader(token)) else None
  }

  /** Right after `login`, the check sends the new token and keeps the user the server confirms. */
  lemma CheckAfterLogin(st: AuthState, token: string, u: User, serialize: User -> string)
    requires token != ""
    ensures CheckRequest(AfterLogin(st, token, u, serialize)) == Some(PhotoModal.BearerHeader(Some(token)))
    ensures AfterCheck(AfterLogin(st, token, u, serialize), Accepted(u)) == AfterLogin(st, token, u, serialize)
  {
    var s := AfterLogin(st, token, u, serialize).storage;
    assert Get(s, TokenKey) == Some(token);
    assert s[UserIdKey := IntToString(u.id)] == s;
  }

  /** What the provider hands to its consumers. */
  datatype ContextValue = ContextValue(user: Option<User>, userId: Option<int>, isAuthenticated: bool)

  /** The exposed `userId` is the signed-in user's id, absent when nobody is signed in. */
  function Context(st: AuthState): (r: ContextValue)
    ensures r.userId.Some? <==> st.user.Some?
    ensures st.user.Some? ==> r.userId.value == st.user.value.id
    ensures r.user == st.user && r.isAuthenticated == st.isAuthenticated
  {
    ContextValue(st.user, if st.user.Some? then Some(st.user.value.id) else None, st.isAuthenticated)
  }

  const OutsideProvider := "useAuth must be used within an AuthProvider"

  /** `useAuth`: the provider's value, or the error thrown when there is no provider above. */
  function UseAuth(ctx: Option<ContextValue>): (r: Result<ContextValue>)
    ensures r.Failure? <==> ctx.None?
    ensures r.Failure? ==> r.error == OutsideProvider
    ensures r.Ok? ==> r.value == ctx.value
  {
    if ctx.None? then Failure(OutsideProvider) else Ok(ctx.value)
  }

  /** The provider component and the storage it works on. */
  class AuthProvider {
    var storage: Storage
    var user: Option<User>
    var isAuthenticated: bool

    function State(): AuthState
      reads this
    {
      AuthState(storage, user, isAuthenticated)
    }

    /** Mounting: both initialisers run, in order, on the stored data. */
    constructor (stored: Storage, parse: string -> Parsed)
      ensures State() == Initial(stored, parse)
    {
      var st := Initial(stored, parse);
      storage := st.storage;
      user := st.user;
      isAuthenticated := st.isAuthenticated;
    }

    method Login(token: string, u: User, serialize: User -> string)
      modifies this
      ensures State() == AfterLogin(old(State()), token, u, serialize)
    {
      storage := storage[TokenKey := token];
      storage := storage[UserKey := serialize(u)];
      storage := storage[LoggedInKey := "true"];
      storage := storage[UserIdKey := IntToString(u.id)];
      user := Some(u);
      isAuthenticated := true;
    }

    method Logout()
      modifies this
      ensures State() == AfterLogout(old(State()))
    {
      storage := storage - AuthKeys;
      user := None;
      isAuthenticated := false;
    }

    /** The start-up check; `reply` is how the request would end, and `request` is the header actually sent. */
    method CheckAuth(reply: MeReply) returns (request: Option<string>)
      modifies this
      ensures request == CheckRequest(old(State()))
      ensures State() == AfterCheck(old(State()), reply)
    {
      var token := Get(storage, TokenKey);
      if !Truthy(token) {
        isAuthenticated := false;
        user := None;
        return None;
      }
      request := Some(PhotoModal.BearerHeader(token));
      match reply {
        case Accepted(u) =>
          user := Some(u);
          storage := storage[UserIdKey := IntToString(u.id)];
          isAuthenticated := true;
        case Refused =>
          Logout();
        case Failed =>
          user := None;
          isAuthenticated := false;
      }
    }

    function Value(): (r: ContextValue)
      reads this
      ensures r == Context(State())
    {
      Context(State())
    }
  }
}
