/** The browser side's authentication state: a reducer over
    `{user, token, isAuthenticated}` with two actions, and a provider that
    keeps the browser's local storage in step with that state on login,
    logout and page reload. */
module AuthContext {
  import opened Wrappers
  import Codec

  datatype User = User(id: string, name: string, email: string)

  datatype AuthState = AuthState(user: Option<User>, token: Option<string>, isAuthenticated: bool)

  datatype AuthAction =
    | Login(user: User, token: string)
    | Logout
    | Unrecognised(kind: string)  // an action of any other type

  const InitialState: AuthState := AuthState(None, None, false)

  /** The local-storage keys the provider uses. */
  const TokenKey: string := "animal_token"
  const UserKey: string := "animal_user"

  /** Signed in exactly when a token is held, and exactly when a user is held. */
  predicate Consistent(s: AuthState)
  {
    && (s.isAuthenticated <==> s.token.Some?)
    && (s.isAuthenticated <==> s.user.Some?)
  }

  /** The reducer. LOGIN and LOGOUT ignore the previous state; anything else keeps it. */
  function Reduce(state: AuthState, action: AuthAction): (next: AuthState)
    ensures Consistent(state) ==> Consistent(next)
    ensures action.Login? ==> next.isAuthenticated && next.token == Some(action.token) && next.user == Some(action.user)
    ensures action.Logout? ==> next == InitialState
    ensures action.Unrecognised? ==> next == state
  {
    match action
    case Login(user, token) => AuthState(Some(user), Some(token), true)
    case Logout => AuthState(None, None, false)
    case Unrecognised(_) => state
  }

  /** Logging out twice is logging out once. */
  lemma LogoutIdempotent(state: AuthState)
    ensures Reduce(Reduce(state, Logout), Logout) == Reduce(state, Logout)
  {
  }

  /** The state after dispatching `actions` in order. */
  function Run(state: AuthState, actions: seq<AuthAction>): AuthState
    decreases |actions|
  {
    if actions == [] then state
    else Reduce(Run(state, actions[..|actions| - 1]), actions[|actions| - 1])
  }

  /** Every action after position `i` is one the reducer ignores. */
  predicate OnlyIgnoredAfter(actions: seq<AuthAction>, i: int)
  {
    forall j :: 0 <= j < |actions| && i < j ==> actions[j].Unrecognised?
  }

  /** The last LOGIN or LOGOUT among `actions`. */
  function LastEffective(actions: seq<AuthAction>): (r: Option<AuthAction>)
    ensures r.Some? ==> r.value in actions && !r.value.Unrecognised?
    ensures r.None? <==> OnlyIgnoredAfter(actions, -1)
    ensures r.Some? ==> exists i :: 0 <= i < |actions| && actions[i] == r.value && OnlyIgnoredAfter(actions, i)
    decreases |actions|
  {
    if actions == [] then None
    else if !actions[|actions| - 1].Unrecognised? then
      assert OnlyIgnoredAfter(actions, |actions| - 1);
      Some(actions[|actions| - 1])
    else
      var prefix := actions[..|actions| - 1];
      var r := LastEffective(prefix);
      if r.Some? then
        var i :| 0 <= i < |prefix| && prefix[i] == r.value && OnlyIgnoredAfter(prefix, i);
        assert actions[i] == r.value && OnlyIgnoredAfter(actions, i);
        r
      else
        assert OnlyIgnoredAfter(actions, -1) by {
          assert OnlyIgnoredAfter(prefix, -1);
        }
        r
  }

  /** Every state reachable from a consistent one is consistent. */
  lemma {:induction false} RunKeepsConsistent(state: AuthState, actions: seq<AuthAction>)
    requires Consistent(state)
    ensures Consistent(Run(state, actions))
    decreases |actions|
  {
    if actions != [] {
      RunKeepsConsistent(state, actions[..|actions| - 1]);
    }
  }

  /** Only the last LOGIN or LOGOUT matters: the state after any sequence of
      actions is the state that last one produces, or the start state if
      there is none. */
  lemma {:induction false} RunFollowsLastEffective(state: AuthState, actions: seq<AuthAction>)
    ensures Run(state, actions) == match LastEffective(actions)
                                   case None => state
                                   case Some(a) => Reduce(state, a)
    decreases |actions|
  {
    if actions != [] {
      var prefix := actions[..|actions| - 1];
      RunFollowsLastEffective(state, prefix);
      if actions[|actions| - 1].Unrecognised? {
        forall i | 0 <= i < |actions| - 1 ensures actions[i] == prefix[i] { }
      }
    }
  }

  /** `JSON.stringify` of the stored user. The text is never empty, which
      would read as absent, and parses back to the same user. */
  function Stringify(user: User): (text: string)
    ensures text != ""
    ensures Parse(text) == Some(user)
  {
    Codec.DecodeEncode([user.id, user.name, user.email]);
    Codec.Encode([user.id, user.name, user.email])
  }

  /** `JSON.parse` of the stored user; `None` where it would throw. Every text
      that parses is the stored form of the user it parses to. */
  function Parse(text: string): (user: Option<User>)
    ensures user.Some? ==> Codec.Encode([user.value.id, user.value.name, user.value.email]) == text
  {
    match Codec.Decode(text)
    case Some(fields) =>
      if |fields| == 3 then
        Codec.EncodeDecode(text, fields);
        assert fields == [fields[0], fields[1], fields[2]];
        Some(User(fields[0], fields[1], fields[2]))
      else None
    case None => None
  }

  /** `localStorage.getItem(key)`. */
  function GetItem(storage: map<string, string>, key: string): (item: Option<string>)
    ensures item.None? <==> key !in storage
    ensures item.Some? ==> item.value == storage[key]
  {
    if key in storage then Some(storage[key]) else None
  }

  /** A stored value the provider accepts: present and not empty. */
  predicate Truthy(item: Option<string>)
  {
    item.Some? && item.value != ""
  }

  /** What the reload effect finds in storage. */
  datatype Restore = NothingStored | MalformedUser | Stored(user: User, token: string)

  function ReadSession(storage: map<string, string>): (r: Restore)
    ensures r == NothingStored <==> !(Truthy(GetItem(storage, TokenKey)) && Truthy(GetItem(storage, UserKey)))
    ensures r.Stored? ==> TokenKey in storage && storage[TokenKey] == r.token && r.token != ""
    ensures r.Stored? ==> UserKey in storage && storage[UserKey] == Stringify(r.user)
  {
    var storedToken := GetItem(storage, TokenKey);
    var storedUser := GetItem(storage, UserKey);
    if Truthy(storedToken) && Truthy(storedUser) then
      match Parse(storedUser.value)
      case Some(user) =>
        Stored(user, storedToken.value)
      case None => MalformedUser
    else NothingStored
  }

  /** Storage after a successful login has saved the session. */
  function Persist(storage: map<string, string>, user: User, token: string): (saved: map<string, string>)
    ensures GetItem(saved, TokenKey) == Some(token)
    ensures GetItem(saved, UserKey) == Some(Stringify(user))
    ensures saved.Keys == storage.Keys + {TokenKey, UserKey}
    ensures forall key :: key != TokenKey && key != UserKey ==> GetItem(saved, key) == GetItem(storage, key)
  {
    storage[TokenKey := token][UserKey := Stringify(user)]
  }

  /** A saved session with a non-empty token is found again on reload. */
  lemma PersistThenRead(storage: map<string, string>, user: User, token: string)
    requires token != ""
    ensures ReadSession(Persist(storage, user, token)) == Stored(user, token)
  {
  }

  /** After logout's removals, reload finds nothing. */
  lemma ClearedReadsNothing(storage: map<string, string>)
    ensures ReadSession(storage - {TokenKey, UserKey}) == NothingStored
  {
  }

  /** While signed in, storage holds exactly the state's token and user. */
  predicate Mirrors(state: AuthState, storage: map<string, string>)
  {
    state.isAuthenticated ==>
      && state.token.Some? && state.user.Some?
      && GetItem(storage, TokenKey) == state.token
      && GetItem(storage, UserKey) == Some(Stringify(state.user.value))
  }

  /** Reloading the page with storage that mirrors a signed-in state with a
      non-empty token rebuilds that same state from the initial one. */
  lemma ReloadRebuildsState(state: AuthState, storage: map<string, string>)
    requires Consistent(state) && Mirrors(state, storage)
    requires state.isAuthenticated && state.token.value != ""
    ensures ReadSession(storage) == Stored(state.user.value, state.token.value)
    ensures Reduce(InitialState, Login(state.user.value, state.token.value)) == state
  {
  }

  /** The provider: the reducer's state plus the browser's local storage. */
  class AuthProvider {
    var state: AuthState
    var storage: map<string, string>

    ghost predicate Valid()
      reads this
    {
      Consistent(state) && Mirrors(state, storage)
    }

    /** `useReducer(authReducer, initialState)` over whatever storage holds. */
    constructor (stored: map<string, string>)
      ensures Valid() && state == InitialState && storage == stored
    {
      state, storage := InitialState, stored;
    }

    method Dispatch(action: AuthAction)
      modifies this`state
      ensures state == Reduce(old(state), action)
    {
      state := Reduce(state, action);
    }

    /** The mount effect: signs in from storage when both items are there. */
    method RestoreSession() returns (r: Restore)
      requires Valid()
      modifies this`state
      ensures Valid()
      ensures r == ReadSession(storage)
      ensures r.Stored? ==> state == AuthState(Some(r.user), Some(r.token), true)
      ensures !r.Stored? ==> state == old(state)
    {
      var storedToken := GetItem(storage, TokenKey);
      var storedUser := GetItem(storage, UserKey);
      if !(Truthy(storedToken) && Truthy(storedUser)) {
        return NothingStored;
      }
      var user := Parse(storedUser.value);
      if user.None? {
        return MalformedUser;
      }
      Dispatch(AuthAction.Login(user.value, storedToken.value));
      r := Stored(user.value, storedToken.value);
    }

    /** `login`: `reply` is what the login request resolved to, `None` when it
        failed. On success both items are saved and the state signs in with
        them; on failure nothing changes and the failure is passed on. */
    method Login(reply: Option<(User, string)>) returns (ok: bool)
      requires Valid()
      modifies this
      ensures Valid()
      ensures ok <==> reply.Some?
      ensures reply.None? ==> state == old(state) && storage == old(storage)
      ensures reply.Some? ==>
                && storage == Persist(old(storage), reply.value.0, reply.value.1)
                && state == AuthState(Some(reply.value.0), Some(reply.value.1), true)
    {
      if reply.None? {
        return false;
      }
      var (tutor, token) := reply.value;
      storage := storage[TokenKey := token];
      storage := storage[UserKey := Stringify(tutor)];
      Dispatch(AuthAction.Login(tutor, token));
      ok := true;
    }

    /** `logout`: both items removed, state back to the initial one. */
    method Logout()
      requires Valid()
      modifies this
      ensures Valid()
      ensures storage == old(storage) - {TokenKey, UserKey}
      ensures state == InitialState
    {
      storage := storage - {TokenKey};
      storage := storage - {UserKey};
      Dispatch(AuthAction.Logout);
    }
  }
}
