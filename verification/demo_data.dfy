/** Demo data for visitors (src/utils/demoData.ts): one generated project with five generated
    tasks, written only when the stored project list is empty.

    Every `Math.random()` draw is an input in [0, 1) and every `Date.now()` an input in
    milliseconds; generated names, descriptions and dates are inputs too. */
module DemoData {
  import opened Seqs
  import opened Strings
  import opened Entities
  import opened Store
  import opened DataService
  import TaskList

  /** The number of tasks of a demo project. */
  const DemoTaskCount := 5

  const PriorityLevels: seq<string> := [Low, Medium, High]
  const PriorityWeights: seq<real> := [0.2, 0.5, 0.3]
  const StatusLevels: seq<string> := [InQueue, InProgress, Blocked, Completed]
  const StatusWeights: seq<real> := [0.3, 0.4, 0.1, 0.2]

  /** A value of `Math.random()`. */
  predicate IsRoll(x: real) {
    0.0 <= x < 1.0
  }

  /** The weighted choice of `generatePriority`/`generateStatus`, as a recursive reference:
      the first item whose running weight total, started at `acc`, exceeds `roll`, or the
      fallback when there is none. */
  function PickFrom(items: seq<string>, weights: seq<real>, roll: real, acc: real, fallback: string): string
    requires |items| == |weights|
    decreases |items|
  {
    if |items| == 0 then fallback
    else if roll < acc + weights[0] then items[0]
    else PickFrom(items[1..], weights[1..], roll, acc + weights[0], fallback)
  }

  /** The `for` loop of `generatePriority`/`generateStatus`: adds up the weights and returns the
      first item whose running total exceeds the roll. */
  method WeightedPick(items: seq<string>, weights: seq<real>, roll: real, fallback: string) returns (choice: string)
    requires |items| == |weights|
    ensures choice == PickFrom(items, weights, roll, 0.0, fallback)
  {
    var sum := 0.0;
    var i := 0;
    while i < |items|
      invariant 0 <= i <= |items|
      invariant PickFrom(items, weights, roll, 0.0, fallback) == PickFrom(items[i..], weights[i..], roll, sum, fallback)
    {
      sum := sum + weights[i];
      if roll < sum {
        return items[i];
      }
      assert items[i..][1..] == items[i + 1..];
      assert weights[i..][1..] == weights[i + 1..];
      i := i + 1;
    }
    return fallback;
  }

  /** `generatePriority()`: low below 0.2, medium below 0.7, high from 0.7 on. */
  function Priority(roll: real): string {
    PickFrom(PriorityLevels, PriorityWeights, roll, 0.0, Medium)
  }

  /** `generateStatus()`: in the queue below 0.3, in progress below 0.7, blocked below 0.8,
      completed from 0.8 on. */
  function Status(roll: real): string {
    PickFrom(StatusLevels, StatusWeights, roll, 0.0, InProgress)
  }

  /** The bands of the two weighted choices: 20/50/30 per cent for priorities and 30/40/10/20
      per cent for statuses, with the fallbacks unreachable for a roll below 1. */
  lemma Bands(roll: real)
    requires IsRoll(roll)
    ensures Priority(roll) == (if roll < 0.2 then Low else if roll < 0.7 then Medium else High)
    ensures Status(roll) == (if roll < 0.3 then InQueue else if roll < 0.7 then InProgress
                             else if roll < 0.8 then Blocked else Completed)
  {
    var p, w := PriorityLevels, PriorityWeights;
    assert p[1..] == [Medium, High] && w[1..] == [0.5, 0.3];
    assert p[2..] == [High] && w[2..] == [0.3];
    assert PickFrom(p[2..], w[2..], roll, 0.7, Medium) == (if roll < 1.0 then High else Medium);
    assert PickFrom(p[1..], w[1..], roll, 0.2, Medium) == (if roll < 0.7 then Medium else PickFrom(p[2..], w[2..], roll, 0.7, Medium));
    var q, v := StatusLevels, StatusWeights;
    assert q[1..] == [InProgress, Blocked, Completed] && v[1..] == [0.4, 0.1, 0.2];
    assert q[2..] == [Blocked, Completed] && v[2..] == [0.1, 0.2];
    assert q[3..] == [Completed] && v[3..] == [0.2];
    assert PickFrom(q[3..], v[3..], roll, 0.8, InProgress) == (if roll < 1.0 then Completed else InProgress);
    assert PickFrom(q[2..], v[2..], roll, 0.7, InProgress) ==
           (if roll < 0.8 then Blocked else PickFrom(q[3..], v[3..], roll, 0.8, InProgress));
    assert PickFrom(q[1..], v[1..], roll, 0.3, InProgress) ==
           (if roll < 0.7 then InProgress else PickFrom(q[2..], v[2..], roll, 0.7, InProgress));
  }

  /** `task-${Date.now()}-${i}`. */
  function DemoTaskId(stamp: nat, i: nat): (id: string)
    requires i < 10
    ensures |id| >= 1 && id[|id| - 1] == DigitChar(i)
  {
    "task-" + NatToString(stamp) + "-" + NatToString(i)
  }

  /** Ids built at different loop positions differ, whatever the clock read: they end in
      different digits. */
  lemma DemoTaskIdsDistinct(s1: nat, i: nat, s2: nat, j: nat)
    requires i < 10 && j < 10 && i != j
    ensures DemoTaskId(s1, i) != DemoTaskId(s2, j)
  {
  }

  /** The random inputs of one generated task. */
  datatype TaskDraw = TaskDraw(
    title: string,
    description: string,
    priorityRoll: real,
    statusRoll: real,
    startDate: int,
    dueDate: int,
    linkRoll: real,
    pickRoll: real)

  /** The random inputs of the generated project. */
  datatype ProjectDraw = ProjectDraw(name: string, description: string, createdAt: int)

  /** The draws are values `Math.random()` can produce. */
  predicate ValidDraws(draws: seq<TaskDraw>) {
    forall k :: 0 <= k < |draws| ==>
      IsRoll(draws[k].priorityRoll) && IsRoll(draws[k].statusRoll) && IsRoll(draws[k].linkRoll) && IsRoll(draws[k].pickRoll)
  }

  /** Every dependency names a task generated earlier in the list. */
  predicate DependsEarlier(tasks: seq<Task>) {
    forall k, d :: 0 <= k < |tasks| && d in tasks[k].dependencies ==>
      exists j :: 0 <= j < k && tasks[j].id == d
  }

  /** No two tasks share an id. */
  predicate DistinctIds(tasks: seq<Task>) {
    forall i, j :: 0 <= i < j < |tasks| ==> tasks[i].id != tasks[j].id
  }

  /** The generated task at loop position `k` is the one its inputs describe: it belongs to
      the project and carries the position's id; its title, description and dates are the
      drawn ones; its status and priority come from its rolls; it is completed exactly when
      its status is; and when it is not the first task and its link roll exceeds one half it
      depends on exactly the earlier task its pick roll chooses, otherwise on none. */
  predicate FromDraw(t: Task, projectId: string, stamps: seq<nat>, k: nat, d: TaskDraw) {
    && k < 10 && k < |stamps| && IsRoll(d.pickRoll)
    && t.projectId == projectId && t.id == DemoTaskId(stamps[k], k)
    && t.title == d.title && t.description == d.description
    && t.startDate == d.startDate && t.dueDate == d.dueDate
    && t.status == Status(d.statusRoll) && t.priority == Priority(d.priorityRoll)
    && (t.completed <==> t.status == Completed)
    && t.dependencies ==
         if k > 0 && d.linkRoll > 0.5 then [DemoTaskId(stamps[PickIndex(d.pickRoll, k)], PickIndex(d.pickRoll, k))]
         else []
  }

  /** Every task of the list came from the draw at its position. */
  predicate AllFromDraws(tasks: seq<Task>, projectId: string, stamps: seq<nat>, draws: seq<TaskDraw>) {
    |tasks| <= |stamps| && |tasks| <= |draws| &&
    forall k :: 0 <= k < |tasks| ==> FromDraw(tasks[k], projectId, stamps, k, draws[k])
  }

  /** Appending the task of the next draw extends the list of generated tasks. */
  lemma AllFromDrawsAppend(tasks: seq<Task>, t: Task, projectId: string, stamps: seq<nat>, draws: seq<TaskDraw>)
    requires AllFromDraws(tasks, projectId, stamps, draws)
    requires |tasks| < |stamps| && |tasks| < |draws|
    requires FromDraw(t, projectId, stamps, |tasks|, draws[|tasks|])
    ensures AllFromDraws(tasks + [t], projectId, stamps, draws)
  {
    var r := tasks + [t];
    forall k | 0 <= k < |r| ensures FromDraw(r[k], projectId, stamps, k, draws[k]) {
      if k < |tasks| {
        assert r[k] == tasks[k];
      }
    }
  }

  /** `Math.floor(Math.random() * i)`: a position before `i`. */
  function PickIndex(roll: real, i: nat): (k: nat)
    requires IsRoll(roll) && i > 0
    ensures k < i
  {
    assert 0.0 <= roll * i as real < i as real;
    (roll * i as real).Floor
  }

  /** Appending a task with a new id whose dependencies name listed tasks keeps the ids
      distinct and the dependencies pointing backwards. */
  lemma AppendKeepsOrder(tasks: seq<Task>, t: Task)
    requires DistinctIds(tasks) && DependsEarlier(tasks)
    requires forall k :: 0 <= k < |tasks| ==> tasks[k].id != t.id
    requires forall d :: d in t.dependencies ==> exists j :: 0 <= j < |tasks| && tasks[j].id == d
    ensures DistinctIds(tasks + [t]) && DependsEarlier(tasks + [t])
  {
    var r := tasks + [t];
    forall k, d | 0 <= k < |r| && d in r[k].dependencies ensures exists j :: 0 <= j < k && r[j].id == d {
      if k < |tasks| {
        var j :| 0 <= j < k && tasks[j].id == d;
        assert r[j].id == d;
      } else {
        var j :| 0 <= j < |tasks| && tasks[j].id == d;
        assert r[j].id == d;
      }
    }
  }

  /** The loop of `generateDemoProjectWithTasks`: five tasks of the project, each depending,
      when its link roll exceeds one half, on one earlier task chosen by its pick roll. */
  method GenerateTasks(projectId: string, stamps: seq<nat>, draws: seq<TaskDraw>) returns (tasks: seq<Task>)
    requires |stamps| == |draws| == DemoTaskCount && ValidDraws(draws)
    ensures |tasks| == DemoTaskCount
    ensures AllFromDraws(tasks, projectId, stamps, draws)
    ensures DistinctIds(tasks) && DependsEarlier(tasks)
  {
    tasks := [];
    var i := 0;
    while i < DemoTaskCount
      invariant 0 <= i <= DemoTaskCount
      invariant |tasks| == i
      invariant AllFromDraws(tasks, projectId, stamps, draws)
      invariant DistinctIds(tasks) && DependsEarlier(tasks)
    {
      var d := draws[i];
      var id := DemoTaskId(stamps[i], i);
      var deps: seq<string> := [];
      if i > 0 && d.linkRoll > 0.5 {
        var pick := PickIndex(d.pickRoll, i);
        assert FromDraw(tasks[pick], projectId, stamps, pick, draws[pick]);
        deps := [tasks[pick].id];
      }
      var status := WeightedPick(StatusLevels, StatusWeights, d.statusRoll, InProgress);
      var priority := WeightedPick(PriorityLevels, PriorityWeights, d.priorityRoll, Medium);
      var t := Task(id, projectId, d.title, d.description, priority, status,
                    d.startDate, d.dueDate, status == Completed, deps);
      forall k | 0 <= k < i ensures tasks[k].id != id {
        DemoTaskIdsDistinct(stamps[k], k, stamps[i], i);
      }
      AppendKeepsOrder(tasks, t);
      assert FromDraw(t, projectId, stamps, i, d);
      AllFromDrawsAppend(tasks, t, projectId, stamps, draws);
      tasks := tasks + [t];
      i := i + 1;
    }
  }

  /** A dependency chain: each listed position depends on the next. */
  predicate Chain(tasks: seq<Task>, path: seq<nat>) {
    && (forall m :: 0 <= m < |path| ==> path[m] < |tasks|)
    && (forall m :: 0 <= m < |path| - 1 ==> tasks[path[m + 1]].id in tasks[path[m]].dependencies)
  }

  /** Along a dependency chain the positions strictly decrease, so no chain of a demo list
      returns to where it started: the dependencies are acyclic. */
  lemma {:induction false} ChainDescends(tasks: seq<Task>, path: seq<nat>)
    requires DistinctIds(tasks) && DependsEarlier(tasks) && Chain(tasks, path) && |path| >= 1
    ensures path[|path| - 1] + (|path| - 1) <= path[0]
    decreases |path|
  {
    if |path| > 1 {
      var d := tasks[path[1]].id;
      var j :| 0 <= j < path[0] && tasks[j].id == d;
      assert j == path[1];
      ChainDescends(tasks, path[1..]);
    }
  }

  /** No dependency chain of length at least two starts and ends at the same task. */
  lemma NoCycle(tasks: seq<Task>, path: seq<nat>)
    requires DistinctIds(tasks) && DependsEarlier(tasks) && Chain(tasks, path) && |path| >= 2
    ensures path[0] != path[|path| - 1]
  {
    ChainDescends(tasks, path);
  }

  /** The generated project: `demo-${Date.now()}`, with the totals of its tasks. */
  function DemoProject(now: nat, draw: ProjectDraw, tasks: seq<Task>): (p: Project)
    requires forall k :: 0 <= k < |tasks| ==> tasks[k].projectId == "demo-" + NatToString(now)
    ensures p.id == "demo-" + NatToString(now)
    ensures p.name == draw.name && p.description == draw.description && p.createdAt == draw.createdAt
    ensures TaskList.CountsMatch(p, tasks)
  {
    TaskList.FilterAllOfProject(tasks, "demo-" + NatToString(now));
    Project("demo-" + NatToString(now), draw.name, draw.description, |tasks|,
            Count(tasks, TaskList.IsDone()), draw.createdAt)
  }

  /** The end of `generateDemoProjectWithTasks`: both lists are read (each may seed), and the
      demo project and its tasks replace them only when the project list is empty. */
  function SaveDemo(s: Store, project: Project, tasks: seq<Task>): (r: Store)
    ensures |GetProjects(s).value| == 0 ==> GetProjects(r) == Out(r, [project]) && GetTasks(r) == Out(r, tasks)
    ensures |GetProjects(s).value| != 0 ==> GetProjects(r).value == GetProjects(s).value
    ensures |GetProjects(s).value| != 0 ==> GetTasks(r).value == GetTasks(s).value
  {
    var rp := GetProjects(s);
    var rt := GetTasks(rp.store);
    if |rp.value| == 0 then
      SaveDemoWrites(s, project, tasks);
      SaveTasks(SaveProjects(rt.store, [project]), tasks)
    else
      SaveDemoReads(s);
      rt.store
  }

  /** With an empty project list the demo lists are what the next reads return. */
  lemma SaveDemoWrites(s: Store, project: Project, tasks: seq<Task>)
    ensures var s1 := SaveProjects(GetTasks(GetProjects(s).store).store, [project]);
      var r := SaveTasks(s1, tasks);
      GetProjects(r) == Out(r, [project]) && GetTasks(r) == Out(r, tasks)
  {
    var s0 := GetTasks(GetProjects(s).store).store;
    var s1 := SaveProjects(s0, [project]);
    SaveThenGetProjects(s0, [project]);
    TasksWriteIsolated(s1, TasksValue(tasks));
    SaveThenGetTasks(s1, tasks);
  }

  /** The two reads keep both lists as the first reads returned them. */
  lemma SaveDemoReads(s: Store)
    ensures var r := GetTasks(GetProjects(s).store).store;
      GetProjects(r).value == GetProjects(s).value && GetTasks(r).value == GetTasks(s).value
  {
    var rp := GetProjects(s);
    ProjectsReadIsolated(s);
    TasksWriteIsolated(rp.store, TasksValue(MockTasks));
    ProjectsWriteIsolated(s, ProjectsValue(MockProjects));
  }

  /** Saving the demo data never touches the current-user record. */
  lemma SaveDemoKeepsUser(s: Store, project: Project, tasks: seq<Task>)
    ensures CurrentUserId(SaveDemo(s, project, tasks)) == CurrentUserId(s)
  {
    var rp := GetProjects(s);
    var rt := GetTasks(rp.store);
    RepositoryKeepsUser(s, [project], tasks);
    RepositoryKeepsUser(rp.store, [project], tasks);
    RepositoryKeepsUser(rt.store, [project], tasks);
    RepositoryKeepsUser(SaveProjects(rt.store, [project]), [project], tasks);
  }

  /** When the repository has no project entry, or an empty one, the read seeds the built-in
      projects, the list is not empty, and the seeded entry is what stays. */
  lemma SaveDemoOnMissingKey(s: Store, project: Project, tasks: seq<Task>)
    requires !Present(s, Key(s, ProjectsKey))
    ensures var r := SaveDemo(s, project, tasks);
      Key(s, ProjectsKey) in r && r[Key(s, ProjectsKey)] == ProjectsValue(MockProjects)
  {
    var rp := GetProjects(s);
    assert rp.store == s[Key(s, ProjectsKey) := ProjectsValue(MockProjects)];
    EntityKeysDistinct(s, "");
    WriteKeepsScope(s, Key(s, ProjectsKey), ProjectsValue(MockProjects));
    assert Key(rp.store, TasksKey) == Key(s, TasksKey);
  }

  /** `generateDemoProjectWithTasks()`: five generated tasks and a project counting them, saved
      only when the repository's project list is empty. */
  method GenerateDemoProjectWithTasks(s: Store, now: nat, project: ProjectDraw, stamps: seq<nat>, draws: seq<TaskDraw>)
    returns (r: Store)
    requires |stamps| == |draws| == DemoTaskCount && ValidDraws(draws)
    ensures |GetProjects(s).value| == 0 ==> |GetProjects(r).value| == 1 && |GetTasks(r).value| == DemoTaskCount
    ensures |GetProjects(s).value| == 0 ==> TaskList.CountsMatch(GetProjects(r).value[0], GetTasks(r).value)
    ensures |GetProjects(s).value| == 0 ==> var p := GetProjects(r).value[0];
      && p.id == "demo-" + NatToString(now)
      && p.name == project.name && p.description == project.description && p.createdAt == project.createdAt
    ensures |GetProjects(s).value| == 0 ==>
      && AllFromDraws(GetTasks(r).value, "demo-" + NatToString(now), stamps, draws)
      && DistinctIds(GetTasks(r).value) && DependsEarlier(GetTasks(r).value)
    ensures |GetProjects(s).value| != 0 ==> GetProjects(r).value == GetProjects(s).value
    ensures |GetProjects(s).value| != 0 ==> GetTasks(r).value == GetTasks(s).value
    ensures CurrentUserId(r) == CurrentUserId(s)
    ensures !Present(s, Key(s, ProjectsKey)) ==>
      Key(s, ProjectsKey) in r && r[Key(s, ProjectsKey)] == ProjectsValue(MockProjects)
  {
    var tasks := GenerateTasks("demo-" + NatToString(now), stamps, draws);
    var p := DemoProject(now, project, tasks);
    r := SaveDemo(s, p, tasks);
    SaveDemoKeepsUser(s, p, tasks);
    if !Present(s, Key(s, ProjectsKey)) {
      SaveDemoOnMissingKey(s, p, tasks);
    }
  }

  /** On a store without a project list the first read seeds the four built-in projects, so
      no demo project is ever written there. */
  lemma FreshStoreGetsNoDemo(project: Project, tasks: seq<Task>)
    ensures GetProjects(SaveDemo(map[], project, tasks)).value == MockProjects
  {
    FreshStoreSeedsProjects();
  }
}
