/** The remote authentication service (src/services/supabaseAuthService.ts). When the remote
    tool bridge is available every operation asks it and records what it answers; otherwise a
    mock signs anybody in with a generated id and a one-hour session.

    Whether the bridge is available (`mcp`) and what it replies are inputs; so is the clock.
    The mock reads `Date.now()` up to four times in one call; those reads are collapsed into the
    single input `now`, in milliseconds, as if they all returned the same instant. */
module SupabaseAuth {
  import opened Optional
  import opened Strings
  import opened Entities
  import opened Store
  import AuthService

  /** What a call to the bridge produced: it threw (or its text did not parse), or it gave an
      object with these optional fields. */
  datatype Reply =
    | Threw
    | Answer(user: Option<User>, session: Option<Session>, message: Option<string>)

  /** A mock session lasts one hour. */
  const SessionLifetime: int := 3600000

  /** The reply message that means a reset mail went out. */
  const ResetSent := "Password reset email sent successfully"

  /** `user-${Date.now()}`. */
  function MockUserId(now: nat): (id: string)
    ensures StartsWith(id, "user-") && |id| > 5
    ensures forall i :: 5 <= i < |id| ==> '0' <= id[i] <= '9'
    ensures DigitsValue(id[5..]) == now
  {
    var id := "user-" + NatToString(now);
    assert id[5..] == NatToString(now);
    id
  }

  /** Sign-ins at distinct instants give distinct ids. */
  lemma MockUserIdInjective(a: nat, b: nat)
    requires MockUserId(a) == MockUserId(b)
    ensures a == b
  {
    assert MockUserId(a)[5..] == MockUserId(b)[5..];
  }

  /** `email.split('@')[0]`: the part of the email before its first `@`. */
  function MockName(email: string): (name: string)
    ensures '@' !in name
  {
    Split(email, '@')[0]
  }

  /** The mock name is the whole email when it has no `@`, and otherwise the part before the
      first `@`. */
  lemma MockNameIsLocalPart(email: string)
    ensures MockName(email) <= email
    ensures '@' !in email ==> MockName(email) == email
    ensures '@' in email ==> |MockName(email)| < |email| && email[|MockName(email)|] == '@'
  {
    SplitFirstPiece(email, '@');
    if |MockName(email)| < |email| {
      assert email[|MockName(email)|] in email;
    } else {
      assert MockName(email) == email[..|MockName(email)|];
    }
  }

  /** `getCurrentSession()`: the stored session, or none when absent or unparseable. */
  function GetCurrentSession(s: Store): Option<Session> {
    if SessionKey in s && s[SessionKey].SessionValue? then Some(s[SessionKey].session) else None
  }

  /** Removes the current user and the session, and nothing else. */
  function ForgetSession(s: Store): (r: Store)
    ensures AuthService.GetCurrentUser(r).None? && GetCurrentSession(r).None?
    ensures forall k :: k != CurrentUserKey && k != SessionKey ==> (k in r <==> k in s) && (k in s ==> r[k] == s[k])
  {
    s - {CurrentUserKey, SessionKey}
  }

  /** `registerUser(email, password, name)`. Remote: the reply's user, with nothing stored;
      mock: a fresh user, named `name || ''`, stored as the current user. */
  function Register(s: Store, mcp: bool, reply: Reply, email: string, name: Option<string>, now: nat)
    : (r: Out<Option<User>>)
    ensures mcp ==> r.store == s
    ensures mcp ==> r.value == (if reply.Answer? then reply.user else None)
    ensures !mcp ==> r.value == Some(User(MockUserId(now), email, Some(name.GetOr(""))))
    ensures !mcp ==> AuthService.GetCurrentUser(r.store) == r.value
    ensures !mcp ==> GetCurrentSession(r.store) == GetCurrentSession(s)
    ensures forall k :: k != CurrentUserKey ==> (k in r.store <==> k in s) && (k in s ==> r.store[k] == s[k])
  {
    if mcp then
      match reply
      case Answer(Some(u), _, _) => Out(s, Some(u))
      case _ => Out(s, None)
    else
      var u := User(MockUserId(now), email, Some(name.GetOr("")));
      Out(s[CurrentUserKey := UserValue(u)], Some(u))
  }

  /** `loginUser(email, password)`. Remote: only a reply carrying both a user and a session
      signs in, and both are stored; mock: any email signs in, named after its local part, with
      a session expiring an hour from now. */
  function Login(s: Store, mcp: bool, reply: Reply, email: string, now: nat): (r: Out<Option<User>>)
    ensures r.value.None? ==> r.store == s
    ensures r.value.None? <==> mcp && !(reply.Answer? && reply.user.Some? && reply.session.Some?)
    ensures r.value.Some? ==> AuthService.GetCurrentUser(r.store) == r.value && GetCurrentSession(r.store).Some?
    ensures mcp && r.value.Some? ==> r.value == reply.user && GetCurrentSession(r.store) == reply.session
    ensures !mcp ==> r.value == Some(User(MockUserId(now), email, Some(MockName(email))))
    ensures !mcp ==> GetCurrentSession(r.store).value.expiresAt == now + SessionLifetime
    ensures forall k :: k != CurrentUserKey && k != SessionKey ==> (k in r.store <==> k in s) && (k in s ==> r.store[k] == s[k])
  {
    if mcp then
      match reply
      case Answer(Some(u), Some(session), _) =>
        Out(s[CurrentUserKey := UserValue(u)][SessionKey := SessionValue(session)], Some(u))
      case _ => Out(s, None)
    else
      var u := User(MockUserId(now), email, Some(MockName(email)));
      var session := Session("token-" + NatToString(now), "refresh-" + NatToString(now), now + SessionLifetime);
      Out(s[CurrentUserKey := UserValue(u)][SessionKey := SessionValue(session)], Some(u))
  }

  /** `setCurrentUser(user)`: stores a user; for `null` removes the user and the session. */
  function SetCurrentUser(s: Store, user: Option<User>): (r: Store)
    ensures AuthService.GetCurrentUser(r) == user
    ensures user.None? ==> GetCurrentSession(r).None?
    ensures user.Some? ==> GetCurrentSession(r) == GetCurrentSession(s)
    ensures user.Some? ==> forall k :: k != CurrentUserKey ==> (k in r <==> k in s) && (k in s ==> r[k] == s[k])
    ensures user.None? ==> forall k :: k != CurrentUserKey && k != SessionKey ==> (k in r <==> k in s) && (k in s ==> r[k] == s[k])
  {
    match user
    case Some(u) => s[CurrentUserKey := UserValue(u)]
    case None => ForgetSession(s)
  }

  /** `logoutUser()`: whatever the bridge does, the user and the session are removed. */
  function Logout(s: Store, mcp: bool, reply: Reply): (r: Store)
    ensures AuthService.GetCurrentUser(r).None? && GetCurrentSession(r).None?
    ensures forall k :: k != CurrentUserKey && k != SessionKey ==> (k in r <==> k in s) && (k in s ==> r[k] == s[k])
  {
    ForgetSession(s)
  }

  /** `resetPassword(email)`: remote, true exactly when the reply carries the agreed message;
      mock, always true. */
  function ResetPassword(mcp: bool, reply: Reply): (ok: bool)
    ensures !mcp ==> ok
    ensures mcp ==> (ok <==> reply.Answer? && reply.message == Some(ResetSent))
  {
    if !mcp then true
    else match reply
      case Answer(_, _, Some(m)) => m == ResetSent
      case _ => false
  }

  /** `initAuthService()`. Remote: the bridge's user replaces the stored one, and a reply
      without a user signs out; a failed call and the mock change nothing. */
  function Init(s: Store, mcp: bool, reply: Reply): (r: Store)
    ensures !mcp || reply.Threw? ==> r == s
    ensures mcp && reply.Answer? && reply.user.Some? ==> AuthService.GetCurrentUser(r) == reply.user
    ensures mcp && reply.Answer? && reply.user.Some? ==> GetCurrentSession(r) == GetCurrentSession(s)
    ensures mcp && reply.Answer? && reply.user.None? ==> r == ForgetSession(s)
    ensures forall k :: k != CurrentUserKey && k != SessionKey ==> (k in r <==> k in s) && (k in s ==> r[k] == s[k])
    ensures reply.Answer? && reply.user.Some? ==> forall k :: k != CurrentUserKey ==> (k in r <==> k in s) && (k in s ==> r[k] == s[k])
  {
    if !mcp then s
    else match reply
      case Threw => s
      case Answer(Some(u), _, _) => s[CurrentUserKey := UserValue(u)]
      case Answer(None, _, _) => ForgetSession(s)
  }

  /** With the mock, signing in then out leaves no user and no session, and every other key
      as it was. */
  lemma MockLoginLogout(s: Store, email: string, now: nat)
    ensures var r := Logout(Login(s, false, Threw, email, now).store, false, Threw);
      && AuthService.GetCurrentUser(r).None?
      && GetCurrentSession(r).None?
      && r == ForgetSession(s)
  {
    var r := Logout(Login(s, false, Threw, email, now).store, false, Threw);
    assert r.Keys == ForgetSession(s).Keys;
  }
}
