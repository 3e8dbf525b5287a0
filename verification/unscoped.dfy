/** The components that read and write the bare `seoProjects` and `seoTasks` entries
    themselves (src/components/Dashboard.tsx, src/components/ProjectsSection.tsx,
    src/components/ProjectsPageContent.tsx), beside the user-scoped repository.

    While nobody is signed in the bare key is the repository's key, so both sides see the same
    data. Once a user is signed in the repository moves to `seoProjects_<id>`, and everything
    these components write becomes invisible to it, and the other way round. */
module Unscoped {
  import opened Entities
  import opened Store
  import opened DataService

  /** What a component finds under a key: nothing (no entry, or the empty string, which
      `if (stored)` treats alike), text that does not parse as the expected list, or the
      list. */
  datatype Entry<T> = Missing | Garbled | Found(value: T)

  /** `localStorage.getItem('seoProjects')`, parsed. */
  function ProjectsEntry(s: Store): (e: Entry<seq<Project>>)
    ensures e.Missing? <==> !Present(s, ProjectsKey)
    ensures e.Found? <==> ProjectsKey in s && s[ProjectsKey].ProjectsValue?
  {
    if !Present(s, ProjectsKey) then Missing
    else if s[ProjectsKey].ProjectsValue? then Found(s[ProjectsKey].projects)
    else Garbled
  }

  /** `localStorage.getItem('seoTasks')`, parsed. */
  function TasksEntry(s: Store): (e: Entry<seq<Task>>)
    ensures e.Missing? <==> !Present(s, TasksKey)
    ensures e.Found? <==> TasksKey in s && s[TasksKey].TasksValue?
  {
    if !Present(s, TasksKey) then Missing
    else if s[TasksKey].TasksValue? then Found(s[TasksKey].tasks)
    else Garbled
  }

  /** The project load of the dashboard and of the projects page: a parsed list is shown; an
      absent or empty entry gets the built-in projects written while the shown list stays as it
      was; an unparseable value changes nothing. */
  function LoadProjectsOrSeed(s: Store, shown: seq<Project>): (r: Out<seq<Project>>)
    ensures ProjectsKey in r.store
    ensures Present(s, ProjectsKey) ==> r.store == s
    ensures !Present(s, ProjectsKey) ==> r.store == s[ProjectsKey := ProjectsValue(MockProjects)]
    ensures !ProjectsEntry(s).Found? ==> r.value == shown
  {
    match ProjectsEntry(s)
    case Found(ps) => Out(s, ps)
    case Garbled => Out(s, shown)
    case Missing => Out(s[ProjectsKey := ProjectsValue(MockProjects)], shown)
  }

  /** The task load of the dashboard: a parsed list is shown; an absent or empty entry gets the
      built-in tasks written and shown; an unparseable value shows them without a write. */
  function LoadTasksOrSeed(s: Store): (r: Out<seq<Task>>)
    ensures TasksKey in r.store
    ensures Present(s, TasksKey) ==> r.store == s
    ensures !Present(s, TasksKey) ==> r.store == s[TasksKey := TasksValue(MockTasks)]
    ensures !TasksEntry(s).Found? ==> r.value == MockTasks
  {
    match TasksEntry(s)
    case Found(ts) => Out(s, ts)
    case _ =>
      if Present(s, TasksKey) then Out(s, MockTasks) else Out(s[TasksKey := TasksValue(MockTasks)], MockTasks)
  }

  /** With nobody signed in, the repository uses the bare keys. */
  lemma AnonymousKeysAreBare(s: Store)
    requires CurrentUserId(s).None?
    ensures Key(s, ProjectsKey) == ProjectsKey && Key(s, TasksKey) == TasksKey
  {
  }

  /** With nobody signed in, the dashboard's task load reads and writes exactly what
      `getTasks()` does, and its project load (starting from the built-in projects) exactly
      what `getProjects()` does. */
  lemma AnonymousLoadsAgree(s: Store)
    requires CurrentUserId(s).None?
    ensures LoadTasksOrSeed(s) == GetTasks(s)
    ensures LoadProjectsOrSeed(s, MockProjects) == GetProjects(s)
  {
    AnonymousKeysAreBare(s);
  }

  /** With a user signed in, writing a bare key changes none of the user's repository reads:
      the user's projects and tasks, and whether reading them seeds anything, stay the same. */
  lemma SignedInIgnoresBareKeys(s: Store, base: string, v: Value)
    requires CurrentUserId(s).Some?
    requires base == ProjectsKey || base == TasksKey
    ensures var t := s[base := v];
      && CurrentUserId(t) == CurrentUserId(s)
      && GetProjects(t).value == GetProjects(s).value
      && GetTasks(t).value == GetTasks(s).value
      && (GetProjects(t).store == t <==> GetProjects(s).store == s)
      && (GetTasks(t).store == t <==> GetTasks(s).store == s)
  {
    var t := s[base := v];
    var x := Scope(s);
    assert x == "_" + CurrentUserId(s).value;
    assert base != CurrentUserKey by {
      PrefixesDiffer(base, "", CurrentUserKey, "", 3);
      assert base + "" == base && CurrentUserKey + "" == CurrentUserKey;
    }
    WriteKeepsScope(s, base, v);
    assert Key(s, ProjectsKey) != base by {
      if base == ProjectsKey {
        assert |Key(s, ProjectsKey)| > |ProjectsKey|;
      } else {
        PrefixesDiffer(ProjectsKey, x, base, "", 5);
        assert base + "" == base;
      }
    }
    assert Key(s, TasksKey) != base by {
      if base == TasksKey {
        assert |Key(s, TasksKey)| > |TasksKey|;
      } else {
        PrefixesDiffer(TasksKey, x, base, "", 3);
        assert base + "" == base;
      }
    }
  }
}
