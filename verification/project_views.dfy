/** The two project lists, src/components/ProjectsSection.tsx (the home page section) and
    src/components/ProjectsPageContent.tsx (the projects page). Both apply the same search,
    comparator, sort toggle and creation rule to a list they keep in the bare `seoProjects`
    entry; they differ in the free-tier limit and in how they load. */
module ProjectViews {
  import opened Optional
  import opened Seqs
  import opened Strings
  import opened Entities
  import opened Store
  import opened DataService
  import opened Sorting
  import opened Unscoped
  import DemoData

  /** Which component: the home page section or the projects page. */
  datatype View = Section | Page

  // ---------------------------------------------------------------- search

  /** The search filter: the lower-cased term occurs in the lower-cased name or description. */
  function Matches(term: string): Project -> bool {
    (p: Project) => Includes(Lower(p.name), Lower(term)) || Includes(Lower(p.description), Lower(term))
  }

  /** `filteredProjects`. */
  function Search(projects: seq<Project>, term: string): (r: seq<Project>)
    ensures forall p :: p in r <==>
      (p in projects && (Includes(Lower(p.name), Lower(term)) || Includes(Lower(p.description), Lower(term))))
    ensures Selects(r, projects, Matches(term))
  {
    var r := Filter(projects, Matches(term));
    FilterSelects(projects, Matches(term));
    forall p ensures p in r <==> p in projects && Matches(term)(p) {
      FilterMembership(projects, Matches(term), p);
    }
    r
  }

  /** An empty search term keeps every project, in order. */
  lemma EmptySearchKeepsAll(projects: seq<Project>)
    ensures Search(projects, "") == projects
  {
    forall i | 0 <= i < |projects| ensures Matches("")(projects[i]) {
      IncludesEmpty(Lower(projects[i].name));
    }
    FilterAll(projects, Matches(""));
  }

  /** The letter case of the term does not matter. */
  lemma SearchIgnoresCase(projects: seq<Project>, term: string)
    ensures Search(projects, Upper(term)) == Search(projects, term)
    ensures Search(projects, Lower(term)) == Search(projects, term)
  {
    LowerUpper(term);
    LowerIdempotent(term);
    assert Matches(Upper(term)) == Matches(term);
    assert Matches(Lower(term)) == Matches(term);
  }

  // ---------------------------------------------------------------- sort

  datatype SortKey = ByName | ByDescription | ByCreatedAt | ByTasksCount | ByCompletedTasks
  datatype Order = Asc | Desc

  /** The sort state `(orderBy, order)`; both components start at newest first. */
  datatype SortState = SortState(orderBy: SortKey, order: Order)

  const InitialSort := SortState(ByCreatedAt, Desc)

  /** The ascending comparison of the sort callback: `localeCompare` for the text keys, the
      difference for the date and the counters. */
  function Comparison(key: SortKey, a: Project, b: Project): int {
    match key
    case ByName => LexCompare(a.name, b.name)
    case ByDescription => LexCompare(a.description, b.description)
    case ByCreatedAt => a.createdAt - b.createdAt
    case ByTasksCount => a.tasksCount - b.tasksCount
    case ByCompletedTasks => a.completedTasks - b.completedTasks
  }

  /** What the callback returns: the comparison, negated for descending order. */
  function Compare(key: SortKey, order: Order, a: Project, b: Project): int {
    if order == Asc then Comparison(key, a, b) else -Comparison(key, a, b)
  }

  /** Descending order is exactly ascending order with the arguments swapped. */
  lemma DescendingSwaps(key: SortKey, a: Project, b: Project)
    ensures Compare(key, Desc, a, b) == -Compare(key, Asc, a, b)
    ensures Compare(key, Desc, a, b) == Compare(key, Asc, b, a)
  {
    if key == ByName {
      LexAntisymmetric(a.name, b.name);
    } else if key == ByDescription {
      LexAntisymmetric(a.description, b.description);
    }
  }

  /** "`a` may come before `b`": the callback does not return a positive number. */
  function Before(key: SortKey, order: Order): (Project, Project) -> bool {
    (a: Project, b: Project) => Compare(key, order, a, b) <= 0
  }

  /** The ascending comparison is a total preorder. */
  lemma AscendingIsPreorder(key: SortKey)
    ensures TotalPreorder(Before(key, Asc))
  {
    var le := Before(key, Asc);
    forall a, b ensures le(a, b) || le(b, a) {
      DescendingSwaps(key, a, b);
    }
    forall a, b, c | le(a, b) && le(b, c) ensures le(a, c) {
      if key == ByName {
        LexTransitive(a.name, b.name, c.name);
      } else if key == ByDescription {
        LexTransitive(a.description, b.description, c.description);
      }
    }
  }

  /** Every comparison of the views is a total preorder. */
  lemma BeforeIsPreorder(key: SortKey, order: Order)
    ensures TotalPreorder(Before(key, order))
  {
    AscendingIsPreorder(key);
    if order == Desc {
      var asc, le := Before(key, Asc), Before(key, Desc);
      forall a, b ensures le(a, b) == asc(b, a) {
        DescendingSwaps(key, a, b);
      }
    }
  }

  /** `sortedProjects`: a sorted permutation of the list. */
  function SortProjects(projects: seq<Project>, st: SortState): (r: seq<Project>)
    ensures multiset(r) == multiset(projects)
    ensures forall i, j :: 0 <= i < j < |r| ==> Compare(st.orderBy, st.order, r[i], r[j]) <= 0
  {
    BeforeIsPreorder(st.orderBy, st.order);
    var r := Sort(projects, Before(st.orderBy, st.order));
    assert forall i, j :: 0 <= i < j < |r| ==> Before(st.orderBy, st.order)(r[i], r[j]);
    r
  }

  /** For the counters and the date, ascending order is non-decreasing and descending order
      non-increasing. */
  lemma NumericOrder(projects: seq<Project>, st: SortState, i: int, j: int)
    requires 0 <= i < j < |SortProjects(projects, st)|
    ensures var r := SortProjects(projects, st);
      && (st == SortState(ByTasksCount, Asc) ==> r[i].tasksCount <= r[j].tasksCount)
      && (st == SortState(ByTasksCount, Desc) ==> r[i].tasksCount >= r[j].tasksCount)
      && (st == SortState(ByCompletedTasks, Asc) ==> r[i].completedTasks <= r[j].completedTasks)
      && (st == SortState(ByCompletedTasks, Desc) ==> r[i].completedTasks >= r[j].completedTasks)
      && (st == SortState(ByCreatedAt, Asc) ==> r[i].createdAt <= r[j].createdAt)
      && (st == SortState(ByCreatedAt, Desc) ==> r[i].createdAt >= r[j].createdAt)
  {
  }

  /** The list on screen: the search result, sorted. */
  function Shown(projects: seq<Project>, term: string, st: SortState): (r: seq<Project>)
    ensures multiset(r) == multiset(Search(projects, term))
    ensures forall p :: p in r <==> p in projects && Matches(term)(p)
    ensures forall i, j :: 0 <= i < j < |r| ==> Compare(st.orderBy, st.order, r[i], r[j]) <= 0
  {
    var r := SortProjects(Search(projects, term), st);
    forall p ensures p in r <==> p in Search(projects, term) {
      assert p in r <==> p in multiset(r);
    }
    r
  }

  /** `handleRequestSort(property)`: the same key while ascending turns descending; anything
      else sorts ascending by the requested key. */
  function RequestSort(st: SortState, key: SortKey): (r: SortState)
    ensures r.orderBy == key
    ensures r.order == Desc <==> st.orderBy == key && st.order == Asc
  {
    SortState(key, if st.orderBy == key && st.order == Asc then Desc else Asc)
  }

  /** Requesting the same key again always reverses the order. */
  lemma RequestSortAlternates(st: SortState, key: SortKey)
    ensures RequestSort(RequestSort(st, key), key).order != RequestSort(st, key).order
    ensures RequestSort(RequestSort(RequestSort(st, key), key), key) == RequestSort(st, key)
  {
  }

  /** The home page section's direction button: reverses the order, keeps the key. */
  function FlipOrder(st: SortState): (r: SortState)
    ensures r.orderBy == st.orderBy && r.order != st.order
  {
    SortState(st.orderBy, if st.order == Asc then Desc else Asc)
  }

  /** Pressing the direction button twice restores the sort state. */
  lemma FlipOrderTwice(st: SortState)
    ensures FlipOrder(FlipOrder(st)) == st
  {
  }

  // ---------------------------------------------------------------- create

  /** The free tier allows two projects on the home page section. */
  const FreeProjectLimit := 2

  /** `handleOpenDialog`: the section refuses a visitor who is not signed in and already has
      two projects; the projects page always opens the dialog. */
  function CanOpenCreate(view: View, signedIn: bool, count: nat): (ok: bool)
    ensures view == Page ==> ok
    ensures view == Section ==> (ok <==> signedIn || count < FreeProjectLimit)
  {
    view == Page || signedIn || count < FreeProjectLimit
  }

  /** The project `handleCreateProject` builds, with no tasks yet. Its id comes from
      `Date.now()` and its creation time from `new Date()`; the two clock reads are collapsed
      into the one input `now`. */
  function NewProject(name: string, description: string, now: nat): (p: Project)
    ensures p.tasksCount == 0 && p.completedTasks == 0
    ensures p.name == name && p.description == description
  {
    Project(NatToString(now), name, description, 0, 0, now)
  }

  /** `handleCreateProject`: nothing for a blank name; otherwise the new project is appended
      to the shown list and the whole list is written to the bare key. */
  function Create(s: Store, shown: seq<Project>, name: string, description: string, now: nat)
    : (r: Option<Out<seq<Project>>>)
    ensures r.None? <==> IsBlank(name)
    ensures r.Some? ==> |r.value.value| == |shown| + 1 && r.value.value[..|shown|] == shown
    ensures r.Some? ==> r.value.value[|shown|] == NewProject(name, description, now)
    ensures r.Some? ==> r.value.store == s[ProjectsKey := ProjectsValue(r.value.value)]
  {
    if IsBlank(name) then None
    else
      var ps := shown + [NewProject(name, description, now)];
      Some(Out(s[ProjectsKey := ProjectsValue(ps)], ps))
  }

  /** With nobody signed in, the repository sees the created project: `getProjects()` then
      returns the view's list, new project included, without seeding. */
  lemma CreateVisibleAnonymous(s: Store, shown: seq<Project>, name: string, description: string, now: nat)
    requires CurrentUserId(s).None? && !IsBlank(name)
    ensures var r := Create(s, shown, name, description, now).value;
      GetProjects(r.store) == Out(r.store, r.value)
  {
    var r := Create(s, shown, name, description, now).value;
    AnonymousKeysAreBare(s);
    SaveThenGetProjects(s, r.value);
  }

  /** With a user signed in, the created project never reaches the user's repository list. */
  lemma CreateInvisibleSignedIn(s: Store, shown: seq<Project>, name: string, description: string, now: nat)
    requires CurrentUserId(s).Some? && !IsBlank(name)
    ensures var r := Create(s, shown, name, description, now).value;
      GetProjects(r.store).value == GetProjects(s).value
  {
    var r := Create(s, shown, name, description, now).value;
    SignedInIgnoresBareKeys(s, ProjectsKey, ProjectsValue(r.value));
  }

  // ---------------------------------------------------------------- load

  /** The projects page's mount effect: the shared load, starting from the built-in projects. */
  function PageMount(s: Store): (r: Out<seq<Project>>)
    ensures ProjectsKey in r.store
    ensures ProjectsEntry(s).Found? ==> r == Out(s, ProjectsEntry(s).value)
    ensures !ProjectsEntry(s).Found? ==> r.value == MockProjects
    ensures CurrentUserId(s).None? ==> r == GetProjects(s)
  {
    if CurrentUserId(s).None? then AnonymousLoadsAgree(s); LoadProjectsOrSeed(s, MockProjects)
    else LoadProjectsOrSeed(s, MockProjects)
  }

  /** The home page section's load effect. A parsed list is shown and an unparseable one
      shows nothing. With no entry, a signed-in user gets an empty list written; a visitor gets
      the demo generator and then whatever the entry holds afterwards. */
  method SectionMount(s: Store, signedIn: bool, now: nat, project: DemoData.ProjectDraw, stamps: seq<nat>,
                      draws: seq<DemoData.TaskDraw>, shown: seq<Project>)
    returns (r: Store, projects: seq<Project>)
    requires |stamps| == |draws| == DemoData.DemoTaskCount && DemoData.ValidDraws(draws)
    ensures ProjectsEntry(s).Found? ==> r == s && projects == ProjectsEntry(s).value
    ensures ProjectsEntry(s).Garbled? ==> r == s && projects == []
    ensures ProjectsEntry(s).Missing? && signedIn ==> r == s[ProjectsKey := ProjectsValue([])] && projects == []
    ensures ProjectsEntry(s).Missing? && !signedIn && CurrentUserId(s).None? ==>
      projects == MockProjects && ProjectsEntry(r) == Found(MockProjects)
    ensures signedIn && CurrentUserId(s).Some? ==> GetProjects(r).value == GetProjects(s).value
  {
    match ProjectsEntry(s)
    case Found(ps) =>
      r, projects := s, ps;
    case Garbled =>
      r, projects := s, [];
    case Missing =>
      if signedIn {
        r, projects := s[ProjectsKey := ProjectsValue([])], [];
        if CurrentUserId(s).Some? {
          SignedInIgnoresBareKeys(s, ProjectsKey, ProjectsValue([]));
        }
      } else {
        r := DemoData.GenerateDemoProjectWithTasks(s, now, project, stamps, draws);
        if CurrentUserId(s).None? {
          AnonymousKeysAreBare(s);
        }
        match ProjectsEntry(r)
        case Found(ps) => projects := ps;
        case Garbled => projects := [];
        case Missing => projects := shown;
      }
  }
}
