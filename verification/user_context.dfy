/** The provider of the local sign-in state (src/contexts/UserContext.tsx): the `user` and
    `loading` React state kept beside the authentication service. Every transition keeps the
    `user` state equal to the stored current-user record. */
module UserContext {
  import opened Optional
  import opened Entities
  import opened Store
  import opened AuthService

  /** The provider's React state and the service state under it. */
  datatype Context = Context(user: Option<User>, loading: bool, auth: AuthState)

  /** The state shown to the components is the stored current user. */
  predicate Synced(c: Context) {
    c.user == GetCurrentUser(c.auth.store)
  }

  /** The mount effect: `initAuthService()`, then the stored current user, then loading ends. */
  function Mount(c: Context): (r: Context)
    requires UniqueIds(c.auth.users)
    ensures Synced(r) && !r.loading
    ensures UniqueIds(r.auth.users)
    ensures r.auth.store == c.auth.store
  {
    var auth := Init(c.auth);
    Context(GetCurrentUser(auth.store), false, auth)
  }

  /** `login(email, password)`: on success the user becomes the state and the stored current
      user; on failure only the merged user table changes. */
  function SignIn(c: Context, email: string, password: string): (r: (Context, Option<User>))
    requires UniqueIds(c.auth.users)
    ensures UniqueIds(r.0.auth.users)
    ensures r.1 == AuthService.Login(c.auth, email, password).1
    ensures r.1.Some? ==> r.0.user == r.1 && GetCurrentUser(r.0.auth.store) == r.1
    ensures r.1.None? ==> r.0.user == c.user && r.0.auth.store == c.auth.store
    ensures Synced(c) ==> Synced(r.0)
  {
    var (auth, u) := AuthService.Login(c.auth, email, password);
    if u.Some? then (Context(u, c.loading, AuthState(auth.users, SetCurrentUser(auth.store, u))), u)
    else (Context(c.user, c.loading, auth), u)
  }

  /** `register(email, password, name)`: on success the new user becomes the state and the
      stored current user. */
  function SignUp(c: Context, email: string, password: string, name: Option<string>, freshId: string)
    : (r: (Context, Option<User>))
    requires UniqueIds(c.auth.users)
    ensures UniqueIds(r.0.auth.users)
    ensures r.1 == Register(c.auth, email, password, name, freshId).1
    ensures r.1.Some? ==> r.0.user == r.1 && GetCurrentUser(r.0.auth.store) == r.1
    ensures r.1.None? ==> r.0 == c
    ensures Synced(c) ==> Synced(r.0)
  {
    var (auth, u) := Register(c.auth, email, password, name, freshId);
    if u.Some? then (Context(u, c.loading, AuthState(auth.users, SetCurrentUser(auth.store, u))), u)
    else (c, u)
  }

  /** `logout()`: no user in the state and no stored current user. */
  function SignOut(c: Context): (r: Context)
    ensures r.user.None? && Synced(r)
    ensures r.auth.users == c.auth.users
  {
    Context(None, c.loading, AuthState(c.auth.users, AuthService.Logout(c.auth.store)))
  }

  /** A registration followed by a sign-out and a sign-in with the same credentials ends
      signed in as the registered user. */
  lemma SignUpSignOutSignIn(c: Context, email: string, password: string, name: Option<string>, freshId: string)
    requires UniqueIds(c.auth.users) && freshId != ""
    requires SignUp(c, email, password, name, freshId).1.Some?
    ensures var c1 := SignOut(SignUp(c, email, password, name, freshId).0);
      var c2 := SignIn(c1, email, password).0;
      c2.user == Some(User(freshId, email, name)) && Synced(c2)
  {
    var (a1, _) := Register(c.auth, email, password, name, freshId);
    var c0 := SignUp(c, email, password, name, freshId).0;
    var c1 := SignOut(c0);
    assert StoredUsers(c1.auth.store) == StoredUsers(a1.store) == Some(a1.users);
    assert c1.auth.users == a1.users;
    AssignSelfPrefix(a1.users, 0);
    assert a1.users[0..] == a1.users;
    assert LoadUsers(c1.auth).users == a1.users == LoadUsers(a1).users;
    LoginDependsOnUsers(c1.auth, a1, email, password);
    RegisterThenLogin(c.auth, email, password, name, freshId);
  }
}
