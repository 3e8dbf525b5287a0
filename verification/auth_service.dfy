/** The local authentication service (src/services/authService.ts): an in-memory user table
    mirrored to the `seoUsers` entry, and the current-user record `seoCurrentUser`.

    The table is a JavaScript object keyed by user id. Its key order is insertion order, so it
    is modelled as an ordered list of entries with distinct ids; `users[id] = v` replaces an
    entry in place or appends a new one, and `Object.keys(users).find(...)` returns the first
    matching entry in that order. */
module AuthService {
  import opened Optional
  import opened Entities
  import opened Store

  /** The module-level `users` object and the browser store. */
  datatype AuthState = AuthState(users: seq<UserEntry>, store: Store)

  /** No id occurs twice: the table is a JavaScript object. */
  predicate UniqueIds(t: seq<UserEntry>) {
    forall i, j :: 0 <= i < j < |t| ==> t[i].id != t[j].id
  }

  /** `id in users`. */
  predicate HasId(t: seq<UserEntry>, id: string) {
    exists i :: 0 <= i < |t| && t[i].id == id
  }

  /** The position of `id` in the table, if any. */
  function IndexOf(t: seq<UserEntry>, id: string): (r: Option<nat>)
    ensures r.Some? ==> r.value < |t| && t[r.value].id == id
    ensures r.None? <==> !HasId(t, id)
  {
    if |t| == 0 then None
    else if t[0].id == id then Some(0)
    else match IndexOf(t[1..], id)
      case Some(i) => Some(i + 1)
      case None => None
  }

  /** `users[id] = credential`: replaces the entry in place, or appends it. */
  function Put(t: seq<UserEntry>, e: UserEntry): (r: seq<UserEntry>)
    requires UniqueIds(t)
    ensures UniqueIds(r)
    ensures HasId(r, e.id)
    ensures forall i :: 0 <= i < |r| && r[i].id == e.id ==> r[i] == e
    ensures forall i :: 0 <= i < |t| && t[i].id != e.id ==> t[i] in r
    ensures forall i :: 0 <= i < |r| && r[i].id != e.id ==> r[i] in t
    ensures !HasId(t, e.id) ==> r == t + [e]
    ensures HasId(t, e.id) ==> |r| == |t| && forall i :: 0 <= i < |t| ==> r[i] == if t[i].id == e.id then e else t[i]
  {
    match IndexOf(t, e.id)
    case Some(i) =>
      var r := t[i := e];
      assert r[i] == e;
      assert forall j :: 0 <= j < |t| && j != i ==> r[j] == t[j] && t[j].id != e.id;
      r
    case None =>
      var r := t + [e];
      assert r[|t|] == e;
      r
  }

  /** `users[id]`: the entry with the id, if any. */
  function Lookup(t: seq<UserEntry>, id: string): (r: Option<UserEntry>)
    ensures r.None? <==> !HasId(t, id)
    ensures r.Some? ==> r.value.id == id && r.value in t
  {
    match IndexOf(t, id)
    case Some(i) => Some(t[i])
    case None => None
  }

  /** In a table with distinct ids, the entry at a position is what its id looks up. */
  lemma LookupAt(t: seq<UserEntry>, n: nat)
    requires UniqueIds(t) && n < |t|
    ensures Lookup(t, t[n].id) == Some(t[n])
  {
    IndexOfUnique(t, n);
  }

  /** The last entry of a list with the id: the one a JavaScript object built from the list
      keeps. */
  function LastWith(t: seq<UserEntry>, id: string): (r: Option<UserEntry>)
    ensures r.None? <==> !HasId(t, id)
    ensures r.Some? ==> exists i :: 0 <= i < |t| && t[i] == r.value && r.value.id == id &&
                                    forall j :: i < j < |t| ==> t[j].id != id
  {
    if |t| == 0 then None
    else match LastWith(t[1..], id)
      case Some(e) =>
        var i :| 0 <= i < |t[1..]| && t[1..][i] == e && e.id == id && forall j :: i < j < |t[1..]| ==> t[1..][j].id != id;
        assert t[i + 1] == e && forall j :: i + 1 < j < |t| ==> t[j].id != id by {
          forall j | i + 1 < j < |t| ensures t[j].id != id { assert t[j] == t[1..][j - 1]; }
        }
        Some(e)
      case None =>
        assert forall j :: 0 < j < |t| ==> t[j].id != id by {
          forall j | 0 < j < |t| ensures t[j].id != id { assert t[j] == t[1..][j - 1]; }
        }
        if t[0].id == id then Some(t[0]) else None
  }

  /** After `users[e.id] = e`, the id looks up `e` and every other id what it did before. */
  lemma PutLookup(t: seq<UserEntry>, e: UserEntry, id: string)
    requires UniqueIds(t)
    ensures Lookup(Put(t, e), id) == if id == e.id then Some(e) else Lookup(t, id)
  {
    var r := Put(t, e);
    if id == e.id {
      var j :| 0 <= j < |r| && r[j].id == e.id;
      LookupAt(r, j);
    } else if HasId(t, id) {
      var i :| 0 <= i < |t| && t[i].id == id;
      LookupAt(t, i);
      assert t[i] in r;
      var j :| 0 <= j < |r| && r[j] == t[i];
      LookupAt(r, j);
    } else {
      forall j | 0 <= j < |r| ensures r[j].id != id {
        if r[j].id != e.id {
          assert r[j] in t;
        }
      }
    }
  }

  /** `Object.assign(users, incoming)`: every incoming entry, in order, put into the table. An
      incoming id ends with its last incoming entry, any other id keeps its entry, no other id
      appears, and the old ids keep their positions. */
  function Assign(t: seq<UserEntry>, incoming: seq<UserEntry>): (r: seq<UserEntry>)
    requires UniqueIds(t)
    ensures UniqueIds(r)
    ensures forall id :: Lookup(r, id) == if HasId(incoming, id) then LastWith(incoming, id) else Lookup(t, id)
    ensures |t| <= |r| && forall i :: 0 <= i < |t| ==> r[i].id == t[i].id
    decreases |incoming|
  {
    if |incoming| == 0 then t
    else
      var t1 := Put(t, incoming[0]);
      forall id ensures Lookup(t1, id) == if id == incoming[0].id then Some(incoming[0]) else Lookup(t, id) {
        PutLookup(t, incoming[0], id);
      }
      forall id ensures HasId(incoming, id) <==> incoming[0].id == id || HasId(incoming[1..], id) {
        HasIdCons(incoming, id);
      }
      Assign(t1, incoming[1..])
  }

  /** An id occurs in a non-empty list iff it heads the list or occurs in its tail. */
  lemma HasIdCons(t: seq<UserEntry>, id: string)
    requires |t| > 0
    ensures HasId(t, id) <==> t[0].id == id || HasId(t[1..], id)
  {
    if HasId(t[1..], id) {
      var i :| 0 <= i < |t[1..]| && t[1..][i].id == id;
      assert t[i + 1].id == id;
    }
    if HasId(t, id) && t[0].id != id {
      var i :| 0 <= i < |t| && t[i].id == id;
      assert t[1..][i - 1].id == id;
    }
  }

  /** Every old and every incoming id is in the merged table. */
  lemma AssignKeepsIds(t: seq<UserEntry>, incoming: seq<UserEntry>, id: string)
    requires UniqueIds(t)
    ensures HasId(Assign(t, incoming), id) <==> HasId(t, id) || HasId(incoming, id)
  {
  }

  /** The first entry with this email, as `Object.values(users).find(...)`. */
  function FindEmail(t: seq<UserEntry>, email: string): (r: Option<nat>)
    ensures r.Some? ==> r.value < |t| && t[r.value].credential.email == email
    ensures r.Some? ==> forall j :: 0 <= j < r.value ==> t[j].credential.email != email
    ensures r.None? ==> forall j :: 0 <= j < |t| ==> t[j].credential.email != email
  {
    if |t| == 0 then None
    else if t[0].credential.email == email then Some(0)
    else match FindEmail(t[1..], email)
      case Some(i) => Some(i + 1)
      case None => None
  }

  /** The first entry whose email and password both match. */
  function FindLogin(t: seq<UserEntry>, email: string, password: string): (r: Option<nat>)
    ensures r.Some? ==> r.value < |t| && t[r.value].credential.email == email && t[r.value].credential.password == password
    ensures r.Some? ==> forall j :: 0 <= j < r.value ==>
      !(t[j].credential.email == email && t[j].credential.password == password)
    ensures r.None? ==> forall j :: 0 <= j < |t| ==>
      !(t[j].credential.email == email && t[j].credential.password == password)
  {
    if |t| == 0 then None
    else if t[0].credential.email == email && t[0].credential.password == password then Some(0)
    else match FindLogin(t[1..], email, password)
      case Some(i) => Some(i + 1)
      case None => None
  }

  /** The table stored under `seoUsers`, when there is one that parses. */
  function StoredUsers(s: Store): Option<seq<UserEntry>> {
    if UsersKey in s && s[UsersKey].UsersValue? then Some(s[UsersKey].table) else None
  }

  /** Merges the stored table into the in-memory one; a missing or unparseable entry changes
      nothing (the shared step of `loginUser` and `initAuthService`). */
  function LoadUsers(st: AuthState): (r: AuthState)
    requires UniqueIds(st.users)
    ensures UniqueIds(r.users) && r.store == st.store
    ensures StoredUsers(st.store).None? ==> r == st
    ensures StoredUsers(st.store).Some? ==> var stored := StoredUsers(st.store).value;
      forall id :: Lookup(r.users, id) == if HasId(stored, id) then LastWith(stored, id) else Lookup(st.users, id)
    ensures forall i :: 0 <= i < |st.users| ==> HasId(r.users, st.users[i].id)
  {
    match StoredUsers(st.store)
    case Some(stored) => AuthState(Assign(st.users, stored), st.store)
    case None => st
  }

  /** `registerUser(email, password, name)` with `freshId` for `generateId()`: refused when the
      in-memory table already has the email; otherwise the entry is added and the whole table
      is written to `seoUsers`. */
  function Register(st: AuthState, email: string, password: string, name: Option<string>, freshId: string)
    : (r: (AuthState, Option<User>))
    requires UniqueIds(st.users)
    ensures UniqueIds(r.0.users)
    ensures r.1.None? <==> exists i :: 0 <= i < |st.users| && st.users[i].credential.email == email
    ensures r.1.None? ==> r.0 == st
    ensures r.1.Some? ==> r.1.value == User(freshId, email, name)
    ensures r.1.Some? && !HasId(st.users, freshId) ==>
      r.0.users == st.users + [UserEntry(freshId, Credential(email, password, name))]
    ensures r.1.Some? && HasId(st.users, freshId) ==>
      && |r.0.users| == |st.users|
      && forall i :: 0 <= i < |st.users| ==>
           r.0.users[i] == if st.users[i].id == freshId then UserEntry(freshId, Credential(email, password, name)) else st.users[i]
    ensures forall k :: k != UsersKey ==> (k in r.0.store <==> k in st.store) && (k in st.store ==> r.0.store[k] == st.store[k])
    ensures r.1.Some? ==> StoredUsers(r.0.store) == Some(r.0.users)
    ensures r.1.Some? ==> forall i :: 0 <= i < |r.0.users| && r.0.users[i].credential.email == email ==>
      r.0.users[i] == UserEntry(freshId, Credential(email, password, name))
  {
    match FindEmail(st.users, email)
    case Some(_) => (st, None)
    case None =>
      var e := UserEntry(freshId, Credential(email, password, name));
      var users := Put(st.users, e);
      (AuthState(users, st.store[UsersKey := UsersValue(users)]), Some(User(freshId, email, name)))
  }

  /** `loginUser(email, password)`: merges the stored table, then the first entry whose email
      and password match signs in, unless its id is empty (`!userId` treats the empty id as
      no match). The merge is kept even when the sign-in fails. */
  function Login(st: AuthState, email: string, password: string): (r: (AuthState, Option<User>))
    requires UniqueIds(st.users)
    ensures r.0 == LoadUsers(st)
    ensures (forall j :: 0 <= j < |r.0.users| ==>
      !(r.0.users[j].credential.email == email && r.0.users[j].credential.password == password)) ==> r.1.None?
    ensures r.1.None? ==> forall j :: 0 <= j < |r.0.users| && r.0.users[j].id != "" ==>
      !(r.0.users[j].credential.email == email && r.0.users[j].credential.password == password) ||
      exists k :: 0 <= k < j && r.0.users[k].id == "" &&
        r.0.users[k].credential.email == email && r.0.users[k].credential.password == password
    ensures r.1.Some? ==> r.1.value.email == email && r.1.value.id != ""
    ensures r.1.Some? ==> exists j :: 0 <= j < |r.0.users| && r.0.users[j].id == r.1.value.id &&
                                      r.0.users[j].credential == Credential(email, password, r.1.value.name) &&
                                      forall k :: 0 <= k < j ==>
                                        !(r.0.users[k].credential.email == email && r.0.users[k].credential.password == password)
  {
    var loaded := LoadUsers(st);
    match FindLogin(loaded.users, email, password)
    case Some(i) =>
      var c := loaded.users[i].credential;
      if loaded.users[i].id == "" then (loaded, None)
      else (loaded, Some(User(loaded.users[i].id, email, c.name)))
    case None => (loaded, None)
  }

  /** `getCurrentUser()`: the stored record, or none when it is absent or does not parse. */
  function GetCurrentUser(s: Store): Option<User> {
    if CurrentUserKey in s && s[CurrentUserKey].UserValue? then Some(s[CurrentUserKey].user) else None
  }

  /** `setCurrentUser(user)`: writes the record for a user, removes it for `null`; no other key
      changes. */
  function SetCurrentUser(s: Store, user: Option<User>): (r: Store)
    ensures GetCurrentUser(r) == user
    ensures forall k :: k != CurrentUserKey ==> (k in r <==> k in s) && (k in s ==> r[k] == s[k])
  {
    match user
    case Some(u) => s[CurrentUserKey := UserValue(u)]
    case None => s - {CurrentUserKey}
  }

  /** `logoutUser()`: removes the current-user record and nothing else. */
  function Logout(s: Store): (r: Store)
    ensures GetCurrentUser(r).None?
    ensures CurrentUserKey !in r
    ensures forall k :: k != CurrentUserKey ==> (k in r <==> k in s) && (k in s ==> r[k] == s[k])
  {
    s - {CurrentUserKey}
  }

  /** `initAuthService()`: merges the stored table into memory; a missing, empty or
      unparseable entry changes nothing. */
  function Init(st: AuthState): (r: AuthState)
    requires UniqueIds(st.users)
    ensures UniqueIds(r.users) && r.store == st.store
    ensures StoredUsers(st.store).None? ==> r == st
    ensures StoredUsers(st.store).Some? ==> var stored := StoredUsers(st.store).value;
      forall id :: Lookup(r.users, id) == if HasId(stored, id) then LastWith(stored, id) else Lookup(st.users, id)
  {
    LoadUsers(st)
  }

  /** Start-up and sign-in merge the stored table the same way. */
  lemma InitIsLoginMerge(st: AuthState, email: string, password: string)
    requires UniqueIds(st.users)
    ensures Init(st) == Login(st, email, password).0
  {
  }

  /** Loading the stored table a second time changes no entry. */
  lemma LoadUsersTwice(st: AuthState, id: string)
    requires UniqueIds(st.users)
    ensures Lookup(LoadUsers(LoadUsers(st)).users, id) == Lookup(LoadUsers(st).users, id)
  {
  }

  /** A table with distinct ids merged with itself is unchanged. */
  lemma {:induction false} AssignSelfPrefix(t: seq<UserEntry>, n: nat)
    requires UniqueIds(t) && n <= |t|
    ensures Assign(t, t[n..]) == t
    decreases |t| - n
  {
    if n < |t| {
      assert IndexOf(t, t[n].id) == Some(n) by {
        IndexOfUnique(t, n);
      }
      assert Put(t, t[n]) == t;
      assert t[n..][1..] == t[n + 1..];
      AssignSelfPrefix(t, n + 1);
    }
  }

  /** In a table with distinct ids, an entry's own id is found at its own position. */
  lemma {:induction false} IndexOfUnique(t: seq<UserEntry>, n: nat)
    requires UniqueIds(t) && n < |t|
    ensures IndexOf(t, t[n].id) == Some(n)
  {
    if n > 0 {
      assert t[1..][n - 1] == t[n];
      IndexOfUnique(t[1..], n - 1);
    }
  }

  /** Signing in right after a successful registration, with the same email and password,
      succeeds as the new user (a generated id is never empty). */
  lemma RegisterThenLogin(st: AuthState, email: string, password: string, name: Option<string>, freshId: string)
    requires UniqueIds(st.users) && freshId != ""
    requires Register(st, email, password, name, freshId).1.Some?
    ensures var st1 := Register(st, email, password, name, freshId).0;
      Login(st1, email, password).1 == Some(User(freshId, email, name))
  {
    var st1 := Register(st, email, password, name, freshId).0;
    var e := UserEntry(freshId, Credential(email, password, name));
    AssignSelfPrefix(st1.users, 0);
    assert st1.users[0..] == st1.users;
    assert LoadUsers(st1) == st1;
    assert st1.users == Put(st.users, e);
    var j :| 0 <= j < |st1.users| && st1.users[j].id == freshId;
    assert st1.users[j] == e;
    match FindLogin(st1.users, email, password)
    case Some(i) =>
      assert st1.users[i] == e;
    case None =>
      assert false;
  }

  /** The outcome of a sign-in depends only on the merged table. */
  lemma LoginDependsOnUsers(a: AuthState, b: AuthState, email: string, password: string)
    requires UniqueIds(a.users) && UniqueIds(b.users)
    requires LoadUsers(a).users == LoadUsers(b).users
    ensures Login(a, email, password).1 == Login(b, email, password).1
  {
  }

  /** A second registration with the same email is refused and changes nothing. */
  lemma RegisterTwiceRefused(st: AuthState, email: string, p1: string, p2: string,
                             n1: Option<string>, n2: Option<string>, id1: string, id2: string)
    requires UniqueIds(st.users)
    requires Register(st, email, p1, n1, id1).1.Some?
    ensures var st1 := Register(st, email, p1, n1, id1).0;
      Register(st1, email, p2, n2, id2) == (st1, None)
  {
    var st1 := Register(st, email, p1, n1, id1).0;
    assert HasId(st1.users, id1);
    var i :| 0 <= i < |st1.users| && st1.users[i].id == id1;
    assert st1.users[i].credential.email == email;
  }

  /** What `setCurrentUser` writes, `getCurrentUser` reads back; after `logoutUser` there is
      no current user. */
  lemma CurrentUserRoundTrip(s: Store, u: User)
    ensures GetCurrentUser(SetCurrentUser(s, Some(u))) == Some(u)
    ensures GetCurrentUser(Logout(SetCurrentUser(s, Some(u)))).None?
  {
  }
}
