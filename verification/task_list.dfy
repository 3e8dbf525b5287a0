/** The task list of one project (src/components/TaskList.tsx): creating, editing, deleting and
    completing tasks, each followed by recounting the project's totals, and the free-tier limit
    on new tasks. Dates are epoch milliseconds; `Date.now()` is the input `now`. */
module TaskList {
  import opened Optional
  import opened Seqs
  import opened Strings
  import opened Entities
  import opened Store
  import opened DataService

  /** The free tier allows five tasks per project. */
  const FreeTaskLimit := 5

  /** The free-tier banner appears from three tasks on. */
  const BannerThreshold := 3

  /** The `Chip` colour of a priority. */
  function PriorityColor(priority: string): (c: string)
    ensures c == "default" <==> priority != High && priority != Medium && priority != Low
  {
    if priority == High then "error"
    else if priority == Medium then "warning"
    else if priority == Low then "success"
    else "default"
  }

  /** The `Chip` colour of a status. */
  function StatusColor(status: string): (c: string)
    ensures c == "default" <==> status != Completed && status != InProgress && status != Blocked
  {
    if status == Completed then "success"
    else if status == InProgress then "info"
    else if status == Blocked then "error"
    else "default"
  }

  /** The three priorities get three different colours, as do the three coloured statuses. */
  lemma ColorsDistinguish()
    ensures |{PriorityColor(High), PriorityColor(Medium), PriorityColor(Low)}| == 3
    ensures |{StatusColor(Completed), StatusColor(InProgress), StatusColor(Blocked)}| == 3
    ensures StatusColor(InQueue) == "default"
  {
  }

  /** `handleOpenDialog`: a visitor who is not signed in cannot open the new-task dialog once
      the project shows five tasks. */
  predicate CanAddTask(signedIn: bool, shown: nat) {
    signedIn || shown < FreeTaskLimit
  }

  /** The free-tier banner: not signed in and at least three tasks shown. */
  predicate ShowsBanner(signedIn: bool, shown: nat) {
    !signedIn && shown >= BannerThreshold
  }

  /** A visitor who is blocked from adding tasks also sees the banner explaining why. */
  lemma BlockedImpliesBanner(signedIn: bool, shown: nat)
    ensures !CanAddTask(signedIn, shown) ==> ShowsBanner(signedIn, shown)
    ensures signedIn ==> CanAddTask(signedIn, shown) && !ShowsBanner(signedIn, shown)
  {
  }

  /** The task filter `task => task.completed`. */
  function IsDone(): Task -> bool {
    (t: Task) => t.completed
  }

  /** The tasks of one project, in stored order. */
  function TasksOf(tasks: seq<Task>, projectId: string): (r: seq<Task>)
    ensures forall i :: 0 <= i < |r| ==> r[i].projectId == projectId
    ensures Selects(r, tasks, OfProject(projectId))
  {
    FilterSelects(tasks, OfProject(projectId));
    Filter(tasks, OfProject(projectId))
  }

  /** A task is shown iff it is stored and belongs to the project; none is shown more often
      than it is stored, and the shown order is the stored order. */
  lemma TasksOfMembership(tasks: seq<Task>, projectId: string, t: Task)
    ensures t in TasksOf(tasks, projectId) <==> t in tasks && t.projectId == projectId
    ensures multiset(TasksOf(tasks, projectId)) <= multiset(tasks)
    ensures Subsequence(TasksOf(tasks, projectId), tasks)
  {
    SelectsMembership(TasksOf(tasks, projectId), tasks, OfProject(projectId), t);
  }

  /** When every task belongs to the project, its tasks are the whole list. */
  lemma FilterAllOfProject(tasks: seq<Task>, projectId: string)
    requires forall k :: 0 <= k < |tasks| ==> tasks[k].projectId == projectId
    ensures TasksOf(tasks, projectId) == tasks
  {
    FilterAll(tasks, OfProject(projectId));
  }

  /** The totals a project shows: its number of tasks and of completed tasks. */
  predicate CountsMatch(p: Project, tasks: seq<Task>) {
    p.tasksCount == |TasksOf(tasks, p.id)| && p.completedTasks == Count(TasksOf(tasks, p.id), IsDone())
  }

  /** `after` is `before` recounted for `projectId` against `tasks`: the same projects in the
      same order, every other project unchanged, and each project with the id changed in its
      two totals only, which now match `tasks`. */
  predicate RecountedFrom(before: seq<Project>, after: seq<Project>, tasks: seq<Task>, projectId: string) {
    && |after| == |before|
    && (forall i :: 0 <= i < |after| && before[i].id != projectId ==> after[i] == before[i])
    && (forall i :: 0 <= i < |after| && before[i].id == projectId ==>
          CountsMatch(after[i], tasks)
          && after[i] == before[i].(tasksCount := after[i].tasksCount, completedTasks := after[i].completedTasks))
  }

  /** `projects.map(p => p.id === projectId ? { ...p, tasksCount, completedTasks } : p)`. */
  function Recount(projects: seq<Project>, tasks: seq<Task>, projectId: string): (r: seq<Project>)
    ensures RecountedFrom(projects, r, tasks, projectId)
  {
    var n := |TasksOf(tasks, projectId)|;
    var done := Count(TasksOf(tasks, projectId), IsDone());
    seq(|projects|, i requires 0 <= i < |projects| =>
      if projects[i].id == projectId then projects[i].(tasksCount := n, completedTasks := done) else projects[i])
  }

  /** The recount is the only list `RecountedFrom` allows. */
  lemma RecountUnique(before: seq<Project>, after: seq<Project>, tasks: seq<Task>, projectId: string)
    requires RecountedFrom(before, after, tasks, projectId)
    ensures after == Recount(before, tasks, projectId)
  {
    var r := Recount(before, tasks, projectId);
    forall i | 0 <= i < |after| ensures after[i] == r[i] {
      if before[i].id == projectId {
        assert after[i].id == projectId && r[i].id == projectId;
      }
    }
  }

  /** `projects.find(p => p.id === projectId)` found something. */
  predicate HasProject(projects: seq<Project>, projectId: string) {
    exists i :: 0 <= i < |projects| && projects[i].id == projectId
  }

  /** Without a project with the id, recounting leaves the list as it is. */
  lemma NothingToRecount(projects: seq<Project>, tasks: seq<Task>, projectId: string)
    requires !HasProject(projects, projectId)
    ensures RecountedFrom(projects, projects, tasks, projectId)
  {
  }

  /** What a task handler leaves in the store, seen from the store `s` it started from: the
      stored task list is `tasks` and reads back without seeding; the projects list read from
      `s` is recounted against it and stored; when no project has the id the projects entry
      is as that read left it; and no entry other than the projects and tasks keys changes. */
  ghost predicate Committed(s: Store, r: Store, projectId: string, tasks: seq<Task>) {
    && Scope(r) == Scope(s)
    && GetTasks(r) == Out(r, tasks)
    && GetProjects(r).store == r
    && RecountedFrom(GetProjects(s).value, GetProjects(r).value, tasks, projectId)
    && (!HasProject(GetProjects(s).value, projectId) ==> AgreeAt(GetProjects(s).store, r, Key(s, ProjectsKey)))
    && (forall k :: k != Key(s, ProjectsKey) && k != Key(s, TasksKey) ==> AgreeAt(s, r, k))
  }

  /** A write of the tasks key before the handler's work is part of it. */
  lemma CommittedThroughTasksWrite(s: Store, v: Value, r: Store, projectId: string, tasks: seq<Task>)
    requires Committed(s[Key(s, TasksKey) := v], r, projectId, tasks)
    ensures Committed(s, r, projectId, tasks)
  {
    var s1 := s[Key(s, TasksKey) := v];
    TasksWriteIsolated(s, v);
    EntityKeysDistinct(s, "");
    assert Key(s1, ProjectsKey) == Key(s, ProjectsKey) && Key(s1, TasksKey) == Key(s, TasksKey);
    forall k | k != Key(s, ProjectsKey) && k != Key(s, TasksKey) ensures AgreeAt(s, r, k) {
      assert AgreeAt(s, s1, k) && AgreeAt(s1, r, k);
    }
  }

  /** The task read before the handler's work is part of it. */
  lemma CommittedThroughTasksRead(s: Store, r: Store, projectId: string, tasks: seq<Task>)
    requires Committed(GetTasks(s).store, r, projectId, tasks)
    ensures Committed(s, r, projectId, tasks)
  {
    if GetTasks(s).store != s {
      CommittedThroughTasksWrite(s, TasksValue(MockTasks), r, projectId, tasks);
    }
  }

  /** The common tail of every task handler: save the new task list, recount the project when
      it exists, and show the project's tasks. The projects read may seed the built-in
      projects. */
  function Commit(s: Store, projectId: string, tasks: seq<Task>): (r: Out<seq<Task>>)
    ensures Committed(s, r.store, projectId, tasks)
    ensures r.value == TasksOf(tasks, projectId)
  {
    var s1 := SaveTasks(s, tasks);
    SaveThenGetTasks(s, tasks);
    var r := RecountStored(s1, projectId, tasks);
    CommittedThroughTasksWrite(s, TasksValue(tasks), r, projectId, tasks);
    Out(r, TasksOf(tasks, projectId))
  }

  /** The recount step of `Commit`, on a store whose task list is `tasks`. */
  function RecountStored(s: Store, projectId: string, tasks: seq<Task>): (r: Store)
    requires GetTasks(s) == Out(s, tasks)
    ensures Committed(s, r, projectId, tasks)
  {
    var rp := GetProjects(s);
    if HasProject(rp.value, projectId) then
      RecountFound(s, projectId, tasks);
      SaveProjects(rp.store, Recount(rp.value, tasks, projectId))
    else
      RecountMissing(s, projectId, tasks);
      rp.store
  }

  /** The recount of a project that exists writes the recounted list and nothing else. */
  lemma RecountFound(s: Store, projectId: string, tasks: seq<Task>)
    requires GetTasks(s) == Out(s, tasks)
    requires HasProject(GetProjects(s).value, projectId)
    ensures Committed(s, SaveProjects(GetProjects(s).store, Recount(GetProjects(s).value, tasks, projectId)), projectId, tasks)
  {
    var updated := Recount(GetProjects(s).value, tasks, projectId);
    ProjectsStepIsolated(s, updated);
    ProjectsStepFrame(s, updated);
  }

  /** Without the project only the projects read remains. */
  lemma RecountMissing(s: Store, projectId: string, tasks: seq<Task>)
    requires GetTasks(s) == Out(s, tasks)
    requires !HasProject(GetProjects(s).value, projectId)
    ensures Committed(s, GetProjects(s).store, projectId, tasks)
  {
    ProjectsReadIsolated(s);
    GetProjectsStable(s);
    NothingToRecount(GetProjects(s).value, tasks, projectId);
  }

  /** The fields of the task dialog. A date is the picker's text as `new Date` reads it:
      `None` when the text is empty or not a date. */
  datatype TaskForm = TaskForm(
    title: string,
    description: string,
    priority: string,
    status: string,
    startDate: Option<int>,
    dueDate: Option<int>,
    dependencies: seq<string>)

  /** Both dialog dates are dates, so `toISOString` does not throw. */
  predicate DatesValid(f: TaskForm) {
    f.startDate.Some? && f.dueDate.Some?
  }

  const DayMillis := 24 * 60 * 60 * 1000

  /** `new Date(new Date(ms).toISOString().split('T')[0])`: midnight UTC of the day. */
  function DayStart(ms: int): (d: int)
    ensures d <= ms < d + DayMillis
    ensures d % DayMillis == 0
  {
    ms - ms % DayMillis
  }

  /** `handleEditTask`: the dialog opened on a task shows its fields, its dates cut to the
      day. */
  function FormOf(t: Task): (f: TaskForm)
    ensures DatesValid(f)
    ensures f.startDate.value == DayStart(t.startDate) && f.dueDate.value == DayStart(t.dueDate)
    ensures f.title == t.title && f.description == t.description && f.priority == t.priority
    ensures f.status == t.status && f.dependencies == t.dependencies
  {
    TaskForm(t.title, t.description, t.priority, t.status, Some(DayStart(t.startDate)), Some(DayStart(t.dueDate)),
             t.dependencies)
  }

  /** The edited task: the dialog's fields and dates over the old task; id, project and
      completion stay. */
  function ApplyForm(t: Task, f: TaskForm, startDate: int, dueDate: int): (r: Task)
    ensures r.id == t.id && r.projectId == t.projectId && r.completed == t.completed
    ensures r.title == f.title && r.description == f.description && r.priority == f.priority
    ensures r.status == f.status && r.dependencies == f.dependencies
    ensures r.startDate == startDate && r.dueDate == dueDate
  {
    t.(title := f.title, description := f.description, priority := f.priority, status := f.status,
       startDate := startDate, dueDate := dueDate, dependencies := f.dependencies)
  }

  /** Saving the edit dialog unchanged keeps the task, except that its dates move to the start
      of their day; it keeps the task exactly when both dates already are. */
  lemma EditUnchanged(t: Task)
    ensures var f := FormOf(t);
      ApplyForm(t, f, f.startDate.value, f.dueDate.value) == t.(startDate := DayStart(t.startDate), dueDate := DayStart(t.dueDate))
    ensures var f := FormOf(t);
      ApplyForm(t, f, f.startDate.value, f.dueDate.value) == t <==> t.startDate % DayMillis == 0 && t.dueDate % DayMillis == 0
  {
  }

  /** `allTasks.map(task => task.id === id ? change(task) : task)`. */
  function MapId(tasks: seq<Task>, id: string, change: Task -> Task): (r: seq<Task>)
    ensures |r| == |tasks|
    ensures forall i :: 0 <= i < |r| ==> r[i] == if tasks[i].id == id then change(tasks[i]) else tasks[i]
  {
    seq(|tasks|, i requires 0 <= i < |tasks| => if tasks[i].id == id then change(tasks[i]) else tasks[i])
  }

  /** Some task has the id. */
  predicate HasTask(tasks: seq<Task>, id: string) {
    exists i :: 0 <= i < |tasks| && tasks[i].id == id
  }

  /** Without a task with the id the map changes nothing. */
  lemma MapIdMissing(tasks: seq<Task>, id: string, change: Task -> Task)
    requires !HasTask(tasks, id)
    ensures MapId(tasks, id, change) == tasks
  {
  }

  /** The new task of the dialog: id from the clock, not completed. */
  function NewTask(projectId: string, f: TaskForm, startDate: int, dueDate: int, now: nat): (t: Task)
    ensures t.id == NatToString(now) && t.projectId == projectId && !t.completed
    ensures t.title == f.title && t.description == f.description && t.priority == f.priority
    ensures t.status == f.status && t.dependencies == f.dependencies
    ensures t.startDate == startDate && t.dueDate == dueDate
  {
    Task(NatToString(now), projectId, f.title, f.description, f.priority, f.status,
         startDate, dueDate, false, f.dependencies)
  }

  /** What the save button does. */
  datatype SaveOutcome =
    | Ignored                      // a blank title: the handler returns at once
    | Threw(store: Store)          // `toISOString` of an invalid date throws after the task read
    | Saved(out: Out<seq<Task>>)   // the task list is saved and the project recounted

  /** `handleSaveTask`: nothing happens for a blank title. Otherwise the edited task is
      updated in place, or a new task is appended, and the project recounted. A dialog date
      that is not a date throws while the new task is built, or while the edited task is
      mapped, so an edit of an id no task has saves the list unchanged. */
  function SaveTask(s: Store, projectId: string, f: TaskForm, editing: Option<Task>, now: nat): (r: SaveOutcome)
    ensures r.Ignored? <==> IsBlank(f.title)
    ensures r.Threw? <==>
      !IsBlank(f.title) && !DatesValid(f) && (editing.None? || HasTask(GetTasks(s).value, editing.value.id))
    ensures r.Threw? ==> r.store == GetTasks(s).store
    ensures r.Saved? ==>
      Committed(s, r.out.store, projectId, GetTasks(r.out.store).value)
      && r.out.value == TasksOf(GetTasks(r.out.store).value, projectId)
    ensures r.Saved? && editing.None? ==>
      DatesValid(f)
      && GetTasks(r.out.store).value == GetTasks(s).value + [NewTask(projectId, f, f.startDate.value, f.dueDate.value, now)]
    ensures r.Saved? && editing.Some? && DatesValid(f) ==>
      GetTasks(r.out.store).value ==
        MapId(GetTasks(s).value, editing.value.id, (t: Task) => ApplyForm(t, f, f.startDate.value, f.dueDate.value))
    ensures r.Saved? && editing.Some? && !DatesValid(f) ==> GetTasks(r.out.store).value == GetTasks(s).value
  {
    if IsBlank(f.title) then Ignored
    else
      var all := GetTasks(s);
      if !DatesValid(f) && (editing.None? || HasTask(all.value, editing.value.id)) then Threw(all.store)
      else
        var updated := match editing
          case Some(e) =>
            if DatesValid(f) then MapId(all.value, e.id, (t: Task) => ApplyForm(t, f, f.startDate.value, f.dueDate.value))
            else all.value
          case None => all.value + [NewTask(projectId, f, f.startDate.value, f.dueDate.value, now)];
        var r := Commit(all.store, projectId, updated);
        CommittedThroughTasksRead(s, r.store, projectId, updated);
        Saved(r)
  }

  /** The filter `task => task.id !== taskId`. */
  function NotId(taskId: string): Task -> bool {
    (t: Task) => t.id != taskId
  }

  /** `handleDeleteTask`: every task with the id is dropped, the rest keep their order. */
  function DeleteTask(s: Store, projectId: string, taskId: string): (r: Out<seq<Task>>)
    ensures Committed(s, r.store, projectId, Filter(GetTasks(s).value, NotId(taskId)))
    ensures r.value == TasksOf(Filter(GetTasks(s).value, NotId(taskId)), projectId)
  {
    var all := GetTasks(s);
    var r := Commit(all.store, projectId, Filter(all.value, NotId(taskId)));
    CommittedThroughTasksRead(s, r.store, projectId, Filter(all.value, NotId(taskId)));
    r
  }

  /** Deleting a task removes every task with that id and keeps every other task. */
  lemma DeleteTaskRemovesOnlyIt(s: Store, projectId: string, taskId: string, t: Task)
    ensures var after := GetTasks(DeleteTask(s, projectId, taskId).store).value;
      t in after <==> t in GetTasks(s).value && t.id != taskId
  {
    FilterMembership(GetTasks(s).value, NotId(taskId), t);
  }

  /** The toggle of one task: completion flips, and the status follows the new completion. */
  function Toggle(t: Task): (r: Task)
    ensures r.completed == !t.completed
    ensures r.completed <==> r.status == Completed
    ensures r == t.(completed := r.completed, status := r.status)
  {
    t.(completed := !t.completed, status := if !t.completed then Completed else InProgress)
  }

  /** `handleToggleComplete`: toggles every task with the id. */
  function ToggleComplete(s: Store, projectId: string, taskId: string): (r: Out<seq<Task>>)
    ensures Committed(s, r.store, projectId, MapId(GetTasks(s).value, taskId, Toggle))
    ensures r.value == TasksOf(MapId(GetTasks(s).value, taskId, Toggle), projectId)
  {
    var all := GetTasks(s);
    var r := Commit(all.store, projectId, MapId(all.value, taskId, Toggle));
    CommittedThroughTasksRead(s, r.store, projectId, MapId(all.value, taskId, Toggle));
    r
  }

  /** Toggling twice restores the completion flag; the status ends as `completed` or
      `in-progress` to match it, so a queued or blocked task loses its status. */
  lemma ToggleTwice(t: Task)
    ensures Toggle(Toggle(t)).completed == t.completed
    ensures Toggle(Toggle(t)) == t.(status := if t.completed then Completed else InProgress)
    ensures Toggle(Toggle(t)) == t <==>
              ((t.completed <==> t.status == Completed) && (t.status == Completed || t.status == InProgress))
  {
  }

  /** Toggling twice through the store gives back the task list with the toggled tasks'
      statuses normalised. */
  lemma ToggleCompleteTwice(s: Store, projectId: string, taskId: string)
    ensures var s2 := ToggleComplete(ToggleComplete(s, projectId, taskId).store, projectId, taskId).store;
      GetTasks(s2).value == MapId(GetTasks(s).value, taskId, (t: Task) => Toggle(Toggle(t)))
  {
    var tasks := GetTasks(s).value;
    var once := MapId(tasks, taskId, Toggle);
    var twice := MapId(once, taskId, Toggle);
    assert twice == MapId(tasks, taskId, (t: Task) => Toggle(Toggle(t)));
  }
}
