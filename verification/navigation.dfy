/** The navigation drawer (src/components/Navigation.tsx): the avatar text and label of the
    signed-in user, the user menu, and which route is highlighted. */
module Navigation {
  import opened Optional
  import opened Strings
  import opened Entities
  import UserProfile

  /** A drawer entry: its text and its route. */
  datatype NavItem = NavItem(text: string, href: string)

  /** `navItems`. */
  const NavItems := [NavItem("Dashboard", "/"), NavItem("Projects", "/projects"), NavItem("Settings", "/settings")]

  /** An entry of the user menu: a link, or the logout action. */
  datatype MenuItem = GoTo(text: string, href: string) | LogoutAction(text: string)

  /** `userMenuItems`: profile and logout when signed in, one sign-in link otherwise. */
  function UserMenu(user: Option<User>): (r: seq<MenuItem>)
    ensures user.Some? ==> |r| == 2 && r[1].LogoutAction?
    ensures user.None? ==> |r| == 1 && r[0].GoTo?
    ensures forall i :: 0 <= i < |r| && r[i].GoTo? ==> r[i].href == "/auth"
  {
    if user.Some? then [GoTo("Profile", "/auth"), LogoutAction("Logout")]
    else [GoTo("Login / Register", "/auth")]
  }

  /** The avatar's text: the initials of the name, at most two, or the first two characters
      of the email, upper-cased; nothing (an icon) when signed out. */
  function AvatarText(user: Option<User>): (r: Option<string>)
    ensures r.None? <==> user.None?
    ensures r.Some? ==> |r.value| <= 2
  {
    match user
    case None => None
    case Some(u) =>
      if UserProfile.HasName(u) then Some(Take(Upper(UserProfile.FirstLetters(Split(u.name.value, ' '))), 2))
      else Some(Upper(Take(u.email, 2)))
  }

  /** The drawer's initials are the profile card's initials cut to two characters. */
  lemma AvatarTextIsProfilePrefix(u: User)
    ensures AvatarText(Some(u)) == Some(Take(UserProfile.Initials(u), 2))
  {
    UserProfile.FirstLettersOfSplit(if UserProfile.HasName(u) then u.name.value else "");
  }

  /** The label under the avatar: the name, else the email, and `Guest User` when signed out. */
  function Label(user: Option<User>): (r: string)
    ensures user.None? ==> r == "Guest User"
    ensures user.Some? && UserProfile.HasName(user.value) ==> r == user.value.name.value
    ensures user.Some? && !UserProfile.HasName(user.value) ==> r == user.value.email
  {
    match user
    case None => "Guest User"
    case Some(u) => if UserProfile.HasName(u) then u.name.value else u.email
  }

  /** A drawer entry is highlighted when the path is its route. */
  predicate Selected(pathname: string, item: NavItem) {
    pathname == item.href
  }

  /** At most one entry is highlighted, and exactly one on the three routes. */
  lemma AtMostOneSelected(pathname: string)
    ensures forall i, j :: 0 <= i < j < |NavItems| ==> !(Selected(pathname, NavItems[i]) && Selected(pathname, NavItems[j]))
    ensures pathname in {"/", "/projects", "/settings"} ==>
      exists i :: 0 <= i < |NavItems| && Selected(pathname, NavItems[i])
  {
    assert NavItems[0].href == "/" && NavItems[1].href == "/projects" && NavItems[2].href == "/settings";
  }
}
