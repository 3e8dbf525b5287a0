/** The records the application keeps in browser storage (`src/services/dataService.ts`,
    `src/services/authService.ts`, `src/services/supabaseAuthService.ts`).
    Timestamps are milliseconds since the epoch; the ISO-8601 text the source stores is
    not modelled. */
module Entities {
  import opened Optional

  /** A project. `tasksCount` and `completedTasks` are denormalised counters that the
      task list recomputes after every task mutation. */
  datatype Project = Project(
    id: string,
    name: string,
    description: string,
    tasksCount: int,
    completedTasks: int,
    createdAt: int)

  /** A task. `priority` and `status` are free strings in the source (the colour maps fall
      back to `default` for unknown values), so they stay strings here. */
  datatype Task = Task(
    id: string,
    projectId: string,
    title: string,
    description: string,
    priority: string,
    status: string,
    startDate: int,
    dueDate: int,
    completed: bool,
    dependencies: seq<string>)

  datatype DocumentKind = File | Link

  /** A document or link attached to a project. */
  datatype Document = Document(
    id: string,
    title: string,
    kind: DocumentKind,
    url: string,
    fileName: Option<string>,
    fileSize: Option<int>,
    fileType: Option<string>,
    createdAt: int)

  /** A free-form settings object. */
  type Settings = map<string, string>

  /** The user record handed to the interface: never carries a password. */
  datatype User = User(id: string, email: string, name: Option<string>)

  /** One row of the local user table: the password is kept in clear text, as in the source. */
  datatype Credential = Credential(email: string, password: string, name: Option<string>)

  /** One `id -> credential` entry of the user table, in the table's key order. */
  datatype UserEntry = UserEntry(id: string, credential: Credential)

  /** The remote-auth session record. */
  datatype Session = Session(accessToken: string, refreshToken: string, expiresAt: int)

  const Completed := "completed"
  const InProgress := "in-progress"
  const InQueue := "in-queue"
  const Blocked := "blocked"
  const High := "high"
  const Medium := "medium"
  const Low := "low"

  /** The four built-in projects (`mockProjects`). The `initialProjects` of the dashboard and
      of the projects page are the same four; the projects section declares a two-project
      list of that name that it never uses. */
  const MockProjects: seq<Project> := [
    Project("1", "Website Optimization", "Improve website performance and SEO ranking", 12, 5, 1739577600000),
    Project("2", "Content Strategy", "Develop content strategy for Q2", 8, 2, 1740787200000),
    Project("3", "Keyword Research", "Research and identify high-value keywords for our industry", 5, 0, 1741132800000),
    Project("4", "Backlink Building", "Develop and implement a strategy to increase quality backlinks", 7, 3, 1740009600000)
  ]

  /** The five built-in tasks (`mockTasks`, repeated verbatim in the dashboard). */
  const MockTasks: seq<Task> := [
    Task("101", "1", "Perform keyword research", "Research and identify high-value keywords for our industry",
         High, Completed, 1739664000000, 1740009600000, true, []),
    Task("102", "1", "Optimize meta tags", "Update title tags and meta descriptions based on keyword research",
         High, InProgress, 1740096000000, 1740441600000, false, ["101"]),
    Task("103", "1", "Improve page load speed", "Optimize images and implement lazy loading",
         Medium, InQueue, 1740528000000, 1741132800000, false, []),
    Task("201", "2", "Content audit", "Audit existing content and identify gaps",
         High, InProgress, 1740873600000, 1741564800000, false, []),
    Task("202", "2", "Create content calendar", "Plan content topics and publishing schedule",
         Medium, InQueue, 1741132800000, 1741996800000, false, ["201"])
  ]
}
