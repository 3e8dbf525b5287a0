/** The settings page (src/app/settings/page.tsx): notification, appearance and privacy
    preferences, the profile form, and the link between the appearance theme and the theme
    provider's mode. The page keeps all of this in React state only. */
module SettingsPage {
  import Theme
  import Store

  datatype NotificationFlag = EmailNotifications | BrowserNotifications | TaskReminders | WeeklyDigest
  datatype Notifications = Notifications(email: bool, browser: bool, taskReminders: bool, weeklyDigest: bool)

  datatype AppearanceField = ThemeField | Density | FontSize
  datatype Appearance = Appearance(theme: string, density: string, fontSize: string)

  datatype PrivacyFlag = ShowCompletedTasks | ShowTaskDetails | ShareAnalytics
  datatype Privacy = Privacy(showCompletedTasks: bool, showTaskDetails: bool, shareAnalytics: bool)

  datatype Preferences = Preferences(notifications: Notifications, appearance: Appearance, privacy: Privacy)

  datatype ProfileField = Name | Email | Role | Company | Bio
  datatype Profile = Profile(name: string, email: string, role: string, company: string, bio: string)

  /** The page's starting preferences. */
  const InitialPreferences := Preferences(
    Notifications(true, true, true, false),
    Appearance(Theme.Light, "comfortable", "medium"),
    Privacy(true, true, false))

  /** The page's starting profile. */
  const InitialProfile := Profile("John Doe", "john.doe@example.com", "SEO Manager", "Acme Inc.",
                                  "Experienced SEO professional with 5+ years in the industry.")

  function NotificationOf(n: Notifications, flag: NotificationFlag): bool {
    match flag
    case EmailNotifications => n.email
    case BrowserNotifications => n.browser
    case TaskReminders => n.taskReminders
    case WeeklyDigest => n.weeklyDigest
  }

  function PrivacyOf(p: Privacy, flag: PrivacyFlag): bool {
    match flag
    case ShowCompletedTasks => p.showCompletedTasks
    case ShowTaskDetails => p.showTaskDetails
    case ShareAnalytics => p.shareAnalytics
  }

  function AppearanceOf(a: Appearance, field: AppearanceField): string {
    match field
    case ThemeField => a.theme
    case Density => a.density
    case FontSize => a.fontSize
  }

  function ProfileOf(p: Profile, field: ProfileField): string {
    match field
    case Name => p.name
    case Email => p.email
    case Role => p.role
    case Company => p.company
    case Bio => p.bio
  }

  /** `handleNotificationChange(setting)`: flips the named flag and nothing else. */
  function NotificationChange(s: Preferences, flag: NotificationFlag): (r: Preferences)
    ensures NotificationOf(r.notifications, flag) == !NotificationOf(s.notifications, flag)
    ensures forall f :: f != flag ==> NotificationOf(r.notifications, f) == NotificationOf(s.notifications, f)
    ensures r.appearance == s.appearance && r.privacy == s.privacy
  {
    var n := s.notifications;
    s.(notifications := match flag
      case EmailNotifications => n.(email := !n.email)
      case BrowserNotifications => n.(browser := !n.browser)
      case TaskReminders => n.(taskReminders := !n.taskReminders)
      case WeeklyDigest => n.(weeklyDigest := !n.weeklyDigest))
  }

  /** Flipping a notification flag twice restores the preferences. */
  lemma NotificationChangeTwice(s: Preferences, flag: NotificationFlag)
    ensures NotificationChange(NotificationChange(s, flag), flag) == s
  {
  }

  /** `handlePrivacyChange(setting)`: flips the named flag and nothing else. */
  function PrivacyChange(s: Preferences, flag: PrivacyFlag): (r: Preferences)
    ensures PrivacyOf(r.privacy, flag) == !PrivacyOf(s.privacy, flag)
    ensures forall f :: f != flag ==> PrivacyOf(r.privacy, f) == PrivacyOf(s.privacy, f)
    ensures r.notifications == s.notifications && r.appearance == s.appearance
  {
    var p := s.privacy;
    s.(privacy := match flag
      case ShowCompletedTasks => p.(showCompletedTasks := !p.showCompletedTasks)
      case ShowTaskDetails => p.(showTaskDetails := !p.showTaskDetails)
      case ShareAnalytics => p.(shareAnalytics := !p.shareAnalytics))
  }

  /** Flipping a privacy flag twice restores the preferences. */
  lemma PrivacyChangeTwice(s: Preferences, flag: PrivacyFlag)
    ensures PrivacyChange(PrivacyChange(s, flag), flag) == s
  {
  }

  /** `handleAppearanceChange(setting, value)`: sets the named field and nothing else; a theme
      change is also handed to the theme provider's `setMode`. */
  function AppearanceChange(s: Preferences, field: AppearanceField, value: string): (r: (Preferences, bool))
    ensures AppearanceOf(r.0.appearance, field) == value
    ensures forall f :: f != field ==> AppearanceOf(r.0.appearance, f) == AppearanceOf(s.appearance, f)
    ensures r.0.notifications == s.notifications && r.0.privacy == s.privacy
    ensures r.1 <==> field == ThemeField
  {
    var a := s.appearance;
    (s.(appearance := match field
      case ThemeField => a.(theme := value)
      case Density => a.(density := value)
      case FontSize => a.(fontSize := value)), field == ThemeField)
  }

  /** The theme-sync effect: whenever the provider's mode changes, it becomes the appearance
      theme; the other appearance fields stay. */
  function SyncTheme(s: Preferences, mode: string): (r: Preferences)
    ensures r.appearance.theme == mode
    ensures r.appearance.density == s.appearance.density && r.appearance.fontSize == s.appearance.fontSize
    ensures r.notifications == s.notifications && r.privacy == s.privacy
  {
    s.(appearance := s.appearance.(theme := mode))
  }

  /** Choosing a theme on the page: the field is set, the provider takes the mode and stores
      it, and the sync effect writes back the same mode, so page and provider agree. */
  lemma ThemeChoiceAgrees(s: Preferences, st: Theme.ThemeState, store: Store.Store, value: string,
                          prefersDark: bool)
    ensures var (page, forward) := AppearanceChange(s, ThemeField, value);
      var (theme, _) := Theme.SetMode(st, store, value, prefersDark);
      forward && SyncTheme(page, theme.mode) == page && theme.mode == page.appearance.theme
  {
  }

  /** `handleProfileChange(field, value)`: sets exactly one field. */
  function ProfileChange(p: Profile, field: ProfileField, value: string): (r: Profile)
    ensures ProfileOf(r, field) == value
    ensures forall f :: f != field ==> ProfileOf(r, f) == ProfileOf(p, f)
  {
    match field
    case Name => p.(name := value)
    case Email => p.(email := value)
    case Role => p.(role := value)
    case Company => p.(company := value)
    case Bio => p.(bio := value)
  }

  /** Re-entering a field's current value changes nothing. */
  lemma ProfileChangeSameValue(p: Profile, field: ProfileField)
    ensures ProfileChange(p, field, ProfileOf(p, field)) == p
  {
  }
}
