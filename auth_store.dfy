/** The persisted authentication store: the two tokens, the signed-in user and the
    `isAuthenticated` flag, its four actions, and what is written to and read back
    from storage. */
module AuthStore {
  import opened Common

  datatype Role = ADMIN | USER

  datatype UserInfo = UserInfo(id: int, email: string, nickname: string, role: Role)

  /** The part of the state that is persisted under the storage key. */
  datatype PersistedAuth = PersistedAuth(
    accessToken: Option<string>,
    refreshToken: Option<string>,
    user: Option<UserInfo>,
    isAuthenticated: bool)

  /** The storage key the state is persisted under. */
  const StorageName := "auth-storage"

  /** A persisted state the store's own actions can produce: the flag is set exactly when both tokens are held. */
  predicate Consistent(p: PersistedAuth)
  {
    (p.isAuthenticated <==> p.accessToken.Some?) && (p.accessToken.Some? <==> p.refreshToken.Some?)
  }

  class AuthState {
    var accessToken: Option<string>
    var refreshToken: Option<string>
    var user: Option<UserInfo>
    var isAuthenticated: bool

    /** `partialize`: the four state fields, without the actions. */
    function Snapshot(): (p: PersistedAuth)
      reads this
      ensures p.accessToken == accessToken && p.refreshToken == refreshToken
      ensures p.user == user && p.isAuthenticated == isAuthenticated
    {
      PersistedAuth(accessToken, refreshToken, user, isAuthenticated)
    }

    predicate Valid()
      reads this
    {
      Consistent(Snapshot())
    }

    /** The initial state: signed out. */
    constructor()
      ensures Valid()
      ensures Snapshot() == PersistedAuth(None, None, None, false)
    {
      accessToken := None;
      refreshToken := None;
      user := None;
      isAuthenticated := false;
    }

    /** `setTokens(a, r)`: stores both tokens and marks the user authenticated; the user is kept. */
    method SetTokens(access: string, refresh: string)
      modifies this
      ensures Valid()
      ensures Snapshot() == PersistedAuth(Some(access), Some(refresh), old(user), true)
    {
      accessToken := Some(access);
      refreshToken := Some(refresh);
      isAuthenticated := true;
    }

    /** `setUser(u)`: replaces the user only. */
    method SetUser(u: UserInfo)
      modifies this
      ensures old(Valid()) ==> Valid()
      ensures Snapshot() == old(Snapshot()).(user := Some(u))
    {
      user := Some(u);
    }

    /** `login(a, r, u)`: tokens, user and flag in one update. */
    method Login(access: string, refresh: string, u: UserInfo)
      modifies this
      ensures Valid()
      ensures Snapshot() == PersistedAuth(Some(access), Some(refresh), Some(u), true)
    {
      accessToken := Some(access);
      refreshToken := Some(refresh);
      user := Some(u);
      isAuthenticated := true;
    }

    /** `logout()`: back to the initial state. */
    method Logout()
      modifies this
      ensures Valid()
      ensures Snapshot() == PersistedAuth(None, None, None, false)
    {
      accessToken := None;
      refreshToken := None;
      user := None;
      isAuthenticated := false;
    }

    /** Rehydration from storage: the stored fields become the state, whatever they hold. */
    method Restore(p: PersistedAuth)
      modifies this
      ensures Snapshot() == p
      ensures Valid() <==> Consistent(p)
    {
      accessToken := p.accessToken;
      refreshToken := p.refreshToken;
      user := p.user;
      isAuthenticated := p.isAuthenticated;
    }
  }

  /** Storing a state and reading it back gives the same state: persisting loses nothing. */
  method PersistRoundTrip(s: AuthState) returns (t: AuthState)
    ensures fresh(t)
    ensures t.Snapshot() == s.Snapshot()
    ensures t.Valid() <==> s.Valid()
  {
    var stored := s.Snapshot();
    t := new AuthState();
    t.Restore(stored);
  }

  /** A token refresh after login keeps the signed-in user and replaces only the tokens;
      a logout afterwards clears everything. */
  method RefreshKeepsSession(access: string, refresh: string, u: UserInfo, access2: string, refresh2: string)
    returns (refreshed: PersistedAuth, final: PersistedAuth)
    ensures refreshed == PersistedAuth(Some(access2), Some(refresh2), Some(u), true)
    ensures final == PersistedAuth(None, None, None, false)
  {
    var s := new AuthState();
    s.Login(access, refresh, u);
    s.SetTokens(access2, refresh2);
    refreshed := s.Snapshot();
    s.Logout();
    final := s.Snapshot();
  }
}
