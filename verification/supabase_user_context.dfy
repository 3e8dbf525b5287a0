/** The provider of the remote sign-in state (src/contexts/SupabaseUserContext.tsx): the `user`
    and `loading` React state over the remote authentication service. */
module SupabaseUserContext {
  import opened Optional
  import opened Entities
  import opened Store
  import AuthService
  import opened SupabaseAuth

  /** The provider's React state and the browser store. */
  datatype Context = Context(user: Option<User>, loading: bool, store: Store)

  /** The state shown to the components is the stored current user. */
  predicate Synced(c: Context) {
    c.user == AuthService.GetCurrentUser(c.store)
  }

  /** The mount effect: `initAuthService()`, then the stored current user; loading always
      ends. */
  function Mount(c: Context, mcp: bool, reply: Reply): (r: Context)
    ensures Synced(r) && !r.loading
    ensures r.store == SupabaseAuth.Init(c.store, mcp, reply)
  {
    var s := SupabaseAuth.Init(c.store, mcp, reply);
    Context(AuthService.GetCurrentUser(s), false, s)
  }

  /** `login(email, password)`: the state becomes whatever the service returned, including
      `null` after a refused sign-in. */
  function SignIn(c: Context, mcp: bool, reply: Reply, email: string, now: nat): (r: (Context, Option<User>))
    ensures r.1 == SupabaseAuth.Login(c.store, mcp, reply, email, now).value
    ensures r.0.user == r.1
    ensures r.1.Some? ==> Synced(r.0)
    ensures r.1.None? ==> r.0.store == c.store
  {
    var out := SupabaseAuth.Login(c.store, mcp, reply, email, now);
    (Context(out.value, c.loading, out.store), out.value)
  }

  /** `logout()`: signed out in the state and in the store. */
  function SignOut(c: Context, mcp: bool, reply: Reply): (r: Context)
    ensures r.user.None? && Synced(r)
    ensures GetCurrentSession(r.store).None?
  {
    Context(None, c.loading, SupabaseAuth.Logout(c.store, mcp, reply))
  }

  /** `register(email, password, name)`: a returned user becomes the state and is stored as
      the current user, also when the remote service did not store it. */
  function SignUp(c: Context, mcp: bool, reply: Reply, email: string, name: Option<string>, now: nat)
    : (r: (Context, Option<User>))
    ensures r.1 == SupabaseAuth.Register(c.store, mcp, reply, email, name, now).value
    ensures r.1.Some? ==> r.0.user == r.1 && Synced(r.0)
    ensures r.1.None? ==> r.0 == c
  {
    var out := SupabaseAuth.Register(c.store, mcp, reply, email, name, now);
    if out.value.Some? then (Context(out.value, c.loading, SupabaseAuth.SetCurrentUser(out.store, out.value)), out.value)
    else (c, out.value)
  }

  /** A refused sign-in while someone is signed in clears the shown user but keeps the stored
      one: the state and the store disagree until the next mount. */
  lemma RefusedSignInHidesStoredUser(c: Context, reply: Reply, email: string, now: nat)
    requires Synced(c) && c.user.Some?
    requires !(reply.Answer? && reply.user.Some? && reply.session.Some?)
    ensures var r := SignIn(c, true, reply, email, now).0;
      r.user.None? && AuthService.GetCurrentUser(r.store) == c.user && !Synced(r)
  {
  }
}
