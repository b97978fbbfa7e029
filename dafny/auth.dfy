/**
 * The authentication provider: whether a user is signed in and under which
 * name, kept beside the browser's local storage, which holds the access
 * token and the user id. The storage is a map from key to value; the
 * `getMe` call is not modelled and its outcome is a parameter.
 */
module Auth {
  import opened Wrappers
  import opened Strings

  const TokenKey: string := "token"
  const UserIdKey: string := "userId"
  const OutsideProviderMessage: string := "useAuth must be used within AuthProvider"

  /** The signed-in user as the session endpoint reports it. */
  datatype Me = Me(id: int, username: string)

  /** What the provider hands to its consumers. */
  datatype AuthContext = AuthContext(isLoggedIn: bool, username: string)

  /** A stored value is truthy unless it is missing or the empty string. */
  predicate HasToken(storage: map<string, string>)
  {
    TokenKey in storage && storage[TokenKey] != ""
  }

  /** `storage` without the two session keys. */
  function WithoutSession(storage: map<string, string>): (r: map<string, string>)
    ensures TokenKey !in r && UserIdKey !in r
    ensures forall k :: k in r <==> k in storage && k != TokenKey && k != UserIdKey
    ensures forall k :: k in r ==> r[k] == storage[k]
  {
    storage - {TokenKey, UserIdKey}
  }

  /** The consumer hook: outside a provider there is no context and the call fails. */
  function UseAuth(context: Option<AuthContext>): (r: Result<AuthContext, string>)
    ensures context.None? <==> r.Failure?
    ensures r.Failure? ==> r.error == OutsideProviderMessage
    ensures r.Success? ==> Some(r.value) == context
  {
    match context
    case Some(c) => Success(c)
    case None => Failure(OutsideProviderMessage)
  }

  class AuthProvider {
    var isLoggedIn: bool
    var username: string
    var storage: map<string, string>
    /** Whether the mount effect (empty dependency list) has run. */
    var effectRan: bool

    /** A fresh provider over the current storage: signed out, empty name. */
    constructor (initialStorage: map<string, string>)
      ensures !isLoggedIn && username == ""
      ensures storage == initialStorage && !effectRan
    {
      isLoggedIn := false;
      username := "";
      storage := initialStorage;
      effectRan := false;
    }

    function Context(): (c: AuthContext)
      reads this
      ensures c.isLoggedIn == isLoggedIn && c.username == username
    {
      AuthContext(isLoggedIn, username)
    }

    /** Marks the user signed in under `name`; the storage is not touched. */
    method UpdateUserInfo(name: string)
      modifies this`isLoggedIn, this`username
      ensures isLoggedIn && username == name
    {
      isLoggedIn := true;
      username := name;
    }

    /** Drops the token and the user id from storage and signs out. */
    method Logout()
      modifies this`storage, this`isLoggedIn, this`username
      ensures storage == WithoutSession(old(storage))
      ensures !isLoggedIn && username == ""
    {
      storage := storage - {TokenKey};
      storage := storage - {UserIdKey};
      isLoggedIn := false;
      username := "";
    }

    /**
     * The mount effect with the outcome of `getMe`. It runs once per mount.
     * With no token nothing happens and `getMe` is not called; otherwise a
     * reported user signs in and has its id stored, and a failure signs out.
     */
    method Hydrate(me: Result<Me, string>) returns (calledGetMe: bool)
      modifies this
      ensures effectRan
      ensures calledGetMe <==> !old(effectRan) && HasToken(old(storage))
      ensures !calledGetMe ==> (isLoggedIn == old(isLoggedIn) && username == old(username)
        && storage == old(storage))
      ensures calledGetMe && me.Success? ==> (isLoggedIn && username == me.value.username
        && storage == old(storage)[UserIdKey := IntToString(me.value.id)])
      ensures calledGetMe && me.Failure? ==> (!isLoggedIn && username == ""
        && storage == WithoutSession(old(storage)))
      ensures calledGetMe ==> (HasToken(storage) <==> me.Success?)
    {
      calledGetMe := false;
      if effectRan {
        return;
      }
      effectRan := true;
      if HasToken(storage) {
        calledGetMe := true;
        match me {
          case Success(data) =>
            UpdateUserInfo(data.username);
            storage := storage[UserIdKey := IntToString(data.id)];
          case Failure(_) =>
            Logout();
        }
      }
    }
  }
}
