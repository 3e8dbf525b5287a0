/** Browser `localStorage` as a map from key to decoded value, and the fixed key layout.

    A stored string is modelled by what `JSON.parse` makes of it: one of the application's
    record kinds, the raw text of a non-JSON entry (`themeMode`), or `Malformed` when parsing
    throws. Reads that find a value of another kind than the one they expect treat it as
    `Malformed`. */
module Store {
  import opened Entities

  datatype Value =
    | ProjectsValue(projects: seq<Project>)
    | TasksValue(tasks: seq<Task>)
    | DocumentsValue(documents: seq<Document>)
    | SettingsValue(settings: Settings)
    | UserValue(user: User)
    | UsersValue(table: seq<UserEntry>)
    | SessionValue(session: Session)
    | Raw(text: string)
    | Malformed

  type Store = map<string, Value>

  /** A result together with the store as the operation left it. */
  datatype Out<T> = Out(store: Store, value: T)

  const CurrentUserKey := "seoCurrentUser"
  const SessionKey := "seoUserSession"
  const UsersKey := "seoUsers"
  const ThemeModeKey := "themeMode"

  /** `localStorage.getItem(k)` is truthy: there is an entry and it is not the empty string.
      The reads below treat a stored `''` like a missing entry, as `if (stored)` does. */
  predicate Present(s: Store, k: string) {
    k in s && s[k] != Raw("")
  }

  /** Two keys that differ at a position inside both fixed prefixes stay different whatever
      is appended to them. */
  lemma PrefixesDiffer(a: string, x: string, b: string, y: string, i: nat)
    requires i < |a| && i < |b| && a[i] != b[i]
    ensures a + x != b + y
  {
    assert (a + x)[i] == a[i];
    assert (b + y)[i] == b[i];
  }

  /** A common suffix can be cancelled. */
  lemma CancelSuffix(a: string, b: string, x: string)
    requires a + x == b + x
    ensures a == b
  {
    assert a == (a + x)[..|a|];
    assert b == (b + x)[..|b|];
  }

  /** A common prefix can be cancelled. */
  lemma CancelPrefix(x: string, a: string, b: string)
    requires x + a == x + b
    ensures a == b
  {
    assert a == (x + a)[|x|..];
    assert b == (x + b)[|x|..];
  }
}
