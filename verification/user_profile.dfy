/** The profile card (src/components/Auth/UserProfile.tsx): the avatar initials and the
    fallbacks for a user without a name. */
module UserProfile {
  import opened Optional
  import opened Strings
  import opened Entities

  /** `parts.map(n => n[0]).join('')`: the first character of every part; an empty part
      contributes nothing, since `join` writes `undefined` as the empty text. */
  function FirstLetters(parts: seq<string>): (r: string)
    ensures |r| <= |parts|
  {
    if |parts| == 0 then ""
    else (if parts[0] == "" then "" else [parts[0][0]]) + FirstLetters(parts[1..])
  }

  /** The characters of `s` that begin a word: not a space, and first or after a space.
      `atStart` says whether the character before `s` was a space (or there was none). */
  function WordStartsFrom(s: string, atStart: bool): string
    decreases |s|
  {
    if |s| == 0 then ""
    else if s[0] == ' ' then WordStartsFrom(s[1..], true)
    else (if atStart then [s[0]] else "") + WordStartsFrom(s[1..], false)
  }

  /** The first character of every word of `s`. */
  function WordStarts(s: string): string {
    WordStartsFrom(s, true)
  }

  /** Splitting on spaces and taking first characters picks exactly the word starts; after a
      non-space character the first piece is skipped. */
  lemma {:induction false} FirstLettersOfSplit(s: string)
    ensures FirstLetters(Split(s, ' ')) == WordStartsFrom(s, true)
    ensures FirstLetters(Split(s, ' ')[1..]) == WordStartsFrom(s, false)
    decreases |s|
  {
    if |s| > 0 {
      var rest := Split(s[1..], ' ');
      FirstLettersOfSplit(s[1..]);
      if s[0] == ' ' {
        assert Split(s, ' ') == [""] + rest;
        assert ([""] + rest)[1..] == rest;
      } else {
        var parts := [[s[0]] + rest[0]] + rest[1..];
        assert Split(s, ' ') == parts;
        assert parts[1..] == rest[1..];
        assert parts[0][0] == s[0];
      }
    }
  }

  /** A name is shown when it is present and not empty (`user.name` is truthy). */
  predicate HasName(u: User) {
    u.name.Some? && u.name.value != ""
  }

  /** `getInitials()`: the upper-cased first letter of every word of the name, or else the
      first two characters of the email, upper-cased. */
  function Initials(u: User): (r: string)
    ensures HasName(u) ==> r == Upper(WordStarts(u.name.value))
    ensures !HasName(u) ==> r == Upper(Take(u.email, 2)) && |r| <= 2
  {
    if HasName(u) then
      FirstLettersOfSplit(u.name.value);
      Upper(FirstLetters(Split(u.name.value, ' ')))
    else Upper(Take(u.email, 2))
  }

  /** What the card shows. */
  datatype Card = Card(initials: string, heading: string, nameRow: string, email: string)

  /** The card, or nothing when nobody is signed in. The heading falls back to `User` and the
      name row to `Not provided`. */
  function Render(user: Option<User>): (r: Option<Card>)
    ensures r.None? <==> user.None?
    ensures r.Some? ==> r.value.email == user.value.email && r.value.initials == Initials(user.value)
    ensures r.Some? ==> (r.value.heading == "User" <==> !HasName(user.value) || user.value.name.value == "User")
    ensures r.Some? && HasName(user.value) ==> r.value.heading == user.value.name.value == r.value.nameRow
    ensures r.Some? && !HasName(user.value) ==> r.value.nameRow == "Not provided"
  {
    match user
    case None => None
    case Some(u) =>
      var name := if HasName(u) then u.name.value else "";
      Some(Card(Initials(u), if name == "" then "User" else name, if name == "" then "Not provided" else name, u.email))
  }
}
