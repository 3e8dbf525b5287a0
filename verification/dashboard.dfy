/** The dashboard (src/components/Dashboard.tsx): task statistics, the completion percentage,
    the tasks due within the next seven days in due-date order, and the load effect that reads
    the bare `seoTasks` and `seoProjects` entries. Its priority and status colours are the task
    list's maps, `TaskList.PriorityColor` and `TaskList.StatusColor`. */
module Dashboard {
  import opened Optional
  import opened Seqs
  import opened Entities
  import opened Store
  import opened DataService
  import opened Sorting
  import opened Completion
  import opened Unscoped
  import TaskList
  import DemoData

  /** The four counters and the percentage of the statistics card. */
  datatype Statistics = Statistics(total: nat, completed: nat, inProgress: nat, highPriority: nat, percentage: int)

  /** The filter `task => task.status === status`. */
  function HasStatus(status: string): Task -> bool {
    (t: Task) => t.status == status
  }

  /** The filter `task => task.priority === priority`. */
  function HasPriority(priority: string): Task -> bool {
    (t: Task) => t.priority == priority
  }

  /** The statistics of a task list. */
  function Stats(tasks: seq<Task>): (r: Statistics)
    ensures r.total == |tasks|
    ensures r.completed <= r.total && r.inProgress <= r.total && r.highPriority <= r.total
    ensures r.completed == Count(tasks, TaskList.IsDone())
    ensures r.inProgress == Count(tasks, HasStatus(InProgress))
    ensures r.highPriority == Count(tasks, HasPriority(High))
    ensures 0 <= r.percentage <= 100
    ensures r.total == 0 ==> r.percentage == 0
    ensures r.total > 0 && r.completed == r.total ==> r.percentage == 100
    ensures r.percentage == Percentage(r.completed, r.total)
  {
    var done := Count(tasks, TaskList.IsDone());
    PercentageBounds(done, |tasks|);
    Statistics(|tasks|, done, Count(tasks, HasStatus(InProgress)), Count(tasks, HasPriority(High)),
               Percentage(done, |tasks|))
  }

  /** One day and one week in milliseconds (`nextWeek.setDate(today.getDate() + 7)`). */
  const Day := 86_400_000
  const Week := 7 * Day

  /** The upcoming-task filter: not completed, due no earlier than now and no later than a
      week from now. */
  function IsUpcoming(today: int): Task -> bool {
    (t: Task) => !t.completed && today <= t.dueDate <= today + Week
  }

  /** The order of the upcoming list: earlier due dates first. */
  function DueFirst(): (Task, Task) -> bool {
    (a: Task, b: Task) => a.dueDate <= b.dueDate
  }

  /** Ordering by due date is a total preorder. */
  lemma DueFirstIsPreorder()
    ensures TotalPreorder(DueFirst())
  {
  }

  /** `upcomingTasks`: the upcoming tasks, sorted by due date. */
  function Upcoming(tasks: seq<Task>, today: int): (r: seq<Task>)
    ensures multiset(r) == multiset(Filter(tasks, IsUpcoming(today)))
    ensures forall i, j :: 0 <= i < j < |r| ==> r[i].dueDate <= r[j].dueDate
  {
    DueFirstIsPreorder();
    var r := Sort(Filter(tasks, IsUpcoming(today)), DueFirst());
    assert forall i, j :: 0 <= i < j < |r| ==> DueFirst()(r[i], r[j]);
    r
  }

  /** A task is listed as upcoming exactly when it is not completed and due within the week. */
  lemma UpcomingMembership(tasks: seq<Task>, today: int, t: Task)
    ensures t in Upcoming(tasks, today) <==> t in tasks && !t.completed && today <= t.dueDate <= today + Week
  {
    var r := Upcoming(tasks, today);
    assert t in r <==> t in multiset(r);
    FilterMembership(tasks, IsUpcoming(today), t);
  }

  /** The project line of an upcoming task: the name of the first project with the task's
      project id, or `Unknown` when there is none or its name is empty. */
  function ProjectLabel(projects: seq<Project>, projectId: string): (r: string)
    ensures (forall i :: 0 <= i < |projects| ==> projects[i].id != projectId) ==> r == "Unknown"
    ensures r != "Unknown" ==> exists i :: 0 <= i < |projects| && projects[i].id == projectId && projects[i].name == r
    ensures forall i :: 0 <= i < |projects| && projects[i].id == projectId && (forall j :: 0 <= j < i ==> projects[j].id != projectId) ==>
      r == if projects[i].name == "" then "Unknown" else projects[i].name
  {
    if |projects| == 0 then "Unknown"
    else if projects[0].id == projectId then (if projects[0].name == "" then "Unknown" else projects[0].name)
    else
      var r := ProjectLabel(projects[1..], projectId);
      assert forall i :: 0 <= i < |projects[1..]| ==> projects[1..][i] == projects[i + 1];
      r
  }

  /** Appending a project changes no label of a project id already in the list. */
  lemma {:induction false} ProjectLabelAppend(projects: seq<Project>, p: Project, projectId: string)
    requires TaskList.HasProject(projects, projectId)
    ensures ProjectLabel(projects + [p], projectId) == ProjectLabel(projects, projectId)
  {
    assert (projects + [p])[1..] == projects[1..] + [p];
    if projects[0].id != projectId {
      var i :| 0 <= i < |projects| && projects[i].id == projectId;
      assert projects[1..][i - 1].id == projectId;
      ProjectLabelAppend(projects[1..], p, projectId);
    }
  }

  /** An id no listed project has gets the label of the appended project. */
  lemma {:induction false} ProjectLabelAppendNew(projects: seq<Project>, p: Project, projectId: string)
    requires !TaskList.HasProject(projects, projectId)
    ensures ProjectLabel(projects + [p], projectId) == if p.id == projectId && p.name != "" then p.name else "Unknown"
  {
    if |projects| > 0 {
      assert (projects + [p])[1..] == projects[1..] + [p];
      assert !TaskList.HasProject(projects[1..], projectId) by {
        forall i | 0 <= i < |projects[1..]| ensures projects[1..][i].id != projectId {
          assert projects[1..][i] == projects[i + 1];
        }
      }
      ProjectLabelAppendNew(projects[1..], p, projectId);
    } else {
      assert projects + [p] == [p];
    }
  }

  /** The load effect: a visitor who is not signed in first gets the demo project (when the
      repository has no projects), then tasks and projects are read from the bare keys. */
  method Mount(s: Store, signedIn: bool, now: nat, project: DemoData.ProjectDraw, stamps: seq<nat>,
               draws: seq<DemoData.TaskDraw>, shown: seq<Project>)
    returns (r: Store, tasks: seq<Task>, projects: seq<Project>)
    requires |stamps| == |draws| == DemoData.DemoTaskCount && DemoData.ValidDraws(draws)
    ensures TasksKey in r && ProjectsKey in r
    ensures signedIn && CurrentUserId(s).Some? ==>
      GetProjects(r).value == GetProjects(s).value && GetTasks(r).value == GetTasks(s).value
    ensures signedIn ==> tasks == (if TasksEntry(s).Found? then TasksEntry(s).value else MockTasks)
    ensures signedIn ==> projects == (if ProjectsEntry(s).Found? then ProjectsEntry(s).value else shown)
    ensures !signedIn && CurrentUserId(s).None? ==> tasks == GetTasks(r).value
    ensures !signedIn && CurrentUserId(s).None? && |GetProjects(s).value| == 0 ==>
      |tasks| == DemoData.DemoTaskCount
  {
    var s1 := s;
    if !signedIn {
      s1 := DemoData.GenerateDemoProjectWithTasks(s, now, project, stamps, draws);
    }
    var t := LoadTasksOrSeed(s1);
    var p := LoadProjectsOrSeed(t.store, shown);
    r, tasks, projects := p.store, t.value, p.value;
    if signedIn && CurrentUserId(s).Some? {
      SignedInIgnoresBareKeys(s, TasksKey, TasksValue(MockTasks));
      SignedInIgnoresBareKeys(t.store, ProjectsKey, ProjectsValue(MockProjects));
    }
    if !signedIn && CurrentUserId(s).None? {
      AnonymousTasksShown(s1, shown);
    }
  }

  /** With nobody signed in, the tasks the load shows are the repository's tasks, also after
      the project load's write. */
  lemma AnonymousTasksShown(s: Store, shown: seq<Project>)
    requires CurrentUserId(s).None?
    ensures var t := LoadTasksOrSeed(s);
      t.value == GetTasks(s).value && t.value == GetTasks(LoadProjectsOrSeed(t.store, shown).store).value
  {
    var t := LoadTasksOrSeed(s);
    AnonymousLoadsAgree(s);
    GetTasksStable(s);
    RepositoryKeepsUser(s, [], []);
    AnonymousKeysAreBare(t.store);
    ProjectsWriteIsolated(t.store, ProjectsValue(MockProjects));
  }
}
