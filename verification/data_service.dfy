/** `LocalStorageService` (src/services/dataService.ts): user-scoped repositories for
    projects, tasks, documents and settings, bulk export/import/clear and cascade delete.

    Every operation is a function from the store (and its inputs) to the new store and its
    result. The scope is re-derived from the current-user record at every call, exactly as
    `getUserKey` does; none of the keys written here is the current-user key, so the scope
    stays fixed across the steps of one operation. */
module DataService {
  import opened Optional
  import opened Seqs
  import opened Strings
  import opened Entities
  import opened Store

  const ProjectsKey := "seoProjects"
  const TasksKey := "seoTasks"
  const ProjectDocsPrefix := "seoProjectDocs_"
  const SettingsKey := "seoSettings"

  /** The id of the current user, when the current-user record parses as a user. */
  function CurrentUserId(s: Store): Option<string> {
    if CurrentUserKey in s && s[CurrentUserKey].UserValue? then Some(s[CurrentUserKey].user.id) else None
  }

  /** What `getUserKey` appends to a base key: `_<id>` for a non-empty explicit id, otherwise
      `_<current user id>`, otherwise nothing. */
  function ScopeSuffix(s: Store, explicitId: Option<string>): string {
    if explicitId.Some? && explicitId.value != "" then "_" + explicitId.value
    else match CurrentUserId(s)
      case Some(id) => "_" + id
      case None => ""
  }

  /** `getUserKey(key, userId?)`. */
  function GetUserKey(s: Store, base: string, explicitId: Option<string>): string {
    base + ScopeSuffix(s, explicitId)
  }

  /** The scope suffix of the repository operations, which pass no explicit id. */
  function Scope(s: Store): string {
    ScopeSuffix(s, None)
  }

  /** The key every repository operation uses: `getUserKey(base)` with no explicit id. */
  function Key(s: Store, base: string): string {
    base + Scope(s)
  }

  /** `${PROJECT_DOCS_KEY_PREFIX}${projectId}`. */
  function DocsBase(projectId: string): string {
    ProjectDocsPrefix + projectId
  }

  /** The three cases of `getUserKey`. */
  lemma GetUserKeyCases(s: Store, base: string, explicitId: Option<string>)
    ensures explicitId.Some? && explicitId.value != "" ==>
      GetUserKey(s, base, explicitId) == base + "_" + explicitId.value
    ensures (explicitId.None? || explicitId.value == "") && CurrentUserKey in s && s[CurrentUserKey].UserValue? ==>
      GetUserKey(s, base, explicitId) == base + "_" + s[CurrentUserKey].user.id
    ensures (explicitId.None? || explicitId.value == "") && (CurrentUserKey !in s || !s[CurrentUserKey].UserValue?) ==>
      GetUserKey(s, base, explicitId) == base
  {
  }

  /** Different signed-in users never share a scoped key, and a signed-in user never shares
      one with the anonymous scope. */
  lemma ScopesSeparate(s: Store, t: Store, base: string)
    requires CurrentUserId(s) != CurrentUserId(t)
    ensures Key(s, base) != Key(t, base)
  {
    if Key(s, base) == Key(t, base) {
      CancelPrefix(base, Scope(s), Scope(t));
      var a, b := Scope(s), Scope(t);
      if CurrentUserId(s).Some? && CurrentUserId(t).Some? {
        CancelPrefix("_", CurrentUserId(s).value, CurrentUserId(t).value);
      }
    }
  }

  /** Writing any key other than the current-user record leaves the scope alone. */
  lemma WriteKeepsScope(s: Store, k: string, v: Value)
    requires k != CurrentUserKey
    ensures Scope(s[k := v]) == Scope(s)
  {
  }

  /** The entity keys are never the current-user key, and never collide with each other. */
  lemma EntityKeysDistinct(s: Store, pid: string)
    ensures Key(s, ProjectsKey) != CurrentUserKey
    ensures Key(s, TasksKey) != CurrentUserKey
    ensures Key(s, SettingsKey) != CurrentUserKey
    ensures Key(s, DocsBase(pid)) != CurrentUserKey
    ensures Key(s, ProjectsKey) != Key(s, TasksKey)
    ensures Key(s, ProjectsKey) != Key(s, SettingsKey)
    ensures Key(s, TasksKey) != Key(s, SettingsKey)
    ensures Key(s, DocsBase(pid)) != Key(s, ProjectsKey)
    ensures Key(s, DocsBase(pid)) != Key(s, TasksKey)
    ensures Key(s, DocsBase(pid)) != Key(s, SettingsKey)
  {
    var x := Scope(s);
    PrefixesDiffer(ProjectsKey, x, CurrentUserKey, "", 3);
    PrefixesDiffer(TasksKey, x, CurrentUserKey, "", 3);
    PrefixesDiffer(SettingsKey, x, CurrentUserKey, "", 3);
    PrefixesDiffer(ProjectDocsPrefix, pid + x, CurrentUserKey, "", 3);
    assert Key(s, DocsBase(pid)) == ProjectDocsPrefix + (pid + x);
    assert CurrentUserKey + "" == CurrentUserKey;
    PrefixesDiffer(ProjectsKey, x, TasksKey, x, 3);
    PrefixesDiffer(ProjectsKey, x, SettingsKey, x, 3);
    PrefixesDiffer(TasksKey, x, SettingsKey, x, 3);
    PrefixesDiffer(ProjectDocsPrefix, pid + x, TasksKey, x, 3);
    PrefixesDiffer(ProjectDocsPrefix, pid + x, SettingsKey, x, 3);
    if Key(s, DocsBase(pid)) == Key(s, ProjectsKey) {
      CancelSuffix(DocsBase(pid), ProjectsKey, x);
    }
  }

  /** Document keys of different projects are different. */
  lemma DocsKeysInjective(s: Store, p: string, q: string)
    requires Key(s, DocsBase(p)) == Key(s, DocsBase(q))
    ensures p == q
  {
    CancelSuffix(DocsBase(p), DocsBase(q), Scope(s));
    CancelPrefix(ProjectDocsPrefix, p, q);
  }

  // ---------------------------------------------------------------- projects and tasks

  /** `getProjects()`: the stored list; the four built-in projects, written to the store,
      when the entry is absent or empty; the built-in projects, without a write, when the value
      does not parse. */
  function GetProjects(s: Store): (r: Out<seq<Project>>)
    ensures r.store == s || r.store == s[Key(s, ProjectsKey) := ProjectsValue(MockProjects)]
  {
    var k := Key(s, ProjectsKey);
    if Present(s, k) then
      match s[k]
      case ProjectsValue(ps) => Out(s, ps)
      case _ => Out(s, MockProjects)
    else
      Out(s[k := ProjectsValue(MockProjects)], MockProjects)
  }

  /** `saveProjects(projects)`. */
  function SaveProjects(s: Store, projects: seq<Project>): Store {
    s[Key(s, ProjectsKey) := ProjectsValue(projects)]
  }

  /** `getTasks()`: as `getProjects`, with the five built-in tasks. */
  function GetTasks(s: Store): (r: Out<seq<Task>>)
    ensures r.store == s || r.store == s[Key(s, TasksKey) := TasksValue(MockTasks)]
  {
    var k := Key(s, TasksKey);
    if Present(s, k) then
      match s[k]
      case TasksValue(ts) => Out(s, ts)
      case _ => Out(s, MockTasks)
    else
      Out(s[k := TasksValue(MockTasks)], MockTasks)
  }

  /** `saveTasks(tasks)`. */
  function SaveTasks(s: Store, tasks: seq<Task>): Store {
    s[Key(s, TasksKey) := TasksValue(tasks)]
  }

  /** The outcomes of reading the projects list; an empty entry counts as missing. */
  lemma GetProjectsCases(s: Store)
    ensures var k := Key(s, ProjectsKey); var r := GetProjects(s);
      && (k !in s ==> r.store == s[k := ProjectsValue(MockProjects)] && r.value == MockProjects)
      && (k in s && s[k] == Raw("") ==> r.store == s[k := ProjectsValue(MockProjects)] && r.value == MockProjects)
      && (k in s && s[k].ProjectsValue? ==> r == Out(s, s[k].projects))
      && (k in s && !s[k].ProjectsValue? && s[k] != Raw("") ==> r == Out(s, MockProjects))
  {
  }

  /** The outcomes of reading the task list; an empty entry counts as missing. */
  lemma GetTasksCases(s: Store)
    ensures var k := Key(s, TasksKey); var r := GetTasks(s);
      && (k !in s ==> r.store == s[k := TasksValue(MockTasks)] && r.value == MockTasks)
      && (k in s && s[k] == Raw("") ==> r.store == s[k := TasksValue(MockTasks)] && r.value == MockTasks)
      && (k in s && s[k].TasksValue? ==> r == Out(s, s[k].tasks))
      && (k in s && !s[k].TasksValue? && s[k] != Raw("") ==> r == Out(s, MockTasks))
  {
  }

  /** The filter predicate `task => task.projectId === projectId`. */
  function OfProject(projectId: string): Task -> bool {
    (t: Task) => t.projectId == projectId
  }

  /** `getProjectTasks(projectId)`: the stored tasks of one project, in stored order. */
  function GetProjectTasks(s: Store, projectId: string): (r: Out<seq<Task>>)
    ensures r.store == GetTasks(s).store
    ensures forall i :: 0 <= i < |r.value| ==> r.value[i].projectId == projectId
    ensures Selects(r.value, GetTasks(s).value, OfProject(projectId))
  {
    var rt := GetTasks(s);
    FilterSelects(rt.value, OfProject(projectId));
    Out(rt.store, Filter(rt.value, OfProject(projectId)))
  }

  // ---------------------------------------------------------------- documents and settings

  /** `getProjectDocuments(projectId)`: never writes; `[]` when absent or unparseable. */
  function GetProjectDocuments(s: Store, projectId: string): seq<Document> {
    var k := Key(s, DocsBase(projectId));
    if k in s && s[k].DocumentsValue? then s[k].documents else []
  }

  /** `saveProjectDocuments(projectId, documents)`. */
  function SaveProjectDocuments(s: Store, projectId: string, documents: seq<Document>): (r: Store)
    ensures GetProjectDocuments(r, projectId) == documents
  {
    EntityKeysDistinct(s, projectId);
    s[Key(s, DocsBase(projectId)) := DocumentsValue(documents)]
  }

  /** `getSettings()`: never writes; `{}` when absent or unparseable. */
  function GetSettings(s: Store): Settings {
    var k := Key(s, SettingsKey);
    if k in s && s[k].SettingsValue? then s[k].settings else map[]
  }

  /** `saveSettings(settings)`. */
  function SaveSettings(s: Store, settings: Settings): (r: Store)
    ensures GetSettings(r) == settings
  {
    EntityKeysDistinct(s, "");
    s[Key(s, SettingsKey) := SettingsValue(settings)]
  }

  /** A second `getProjects()` returns the same list and writes nothing more. */
  lemma GetProjectsStable(s: Store)
    ensures GetProjects(GetProjects(s).store) == Out(GetProjects(s).store, GetProjects(s).value)
  {
    EntityKeysDistinct(s, "");
    WriteKeepsScope(s, Key(s, ProjectsKey), ProjectsValue(MockProjects));
  }

  /** A second `getTasks()` returns the same list and writes nothing more. */
  lemma GetTasksStable(s: Store)
    ensures GetTasks(GetTasks(s).store) == Out(GetTasks(s).store, GetTasks(s).value)
  {
    EntityKeysDistinct(s, "");
    WriteKeepsScope(s, Key(s, TasksKey), TasksValue(MockTasks));
  }

  /** On a store with no entry at all, the first read seeds and returns the four built-in
      projects, and the second returns the same four without writing again. */
  lemma FreshStoreSeedsProjects()
    ensures GetProjects(map[]).value == MockProjects && |MockProjects| == 4
    ensures GetProjects(map[]).store == map[ProjectsKey := ProjectsValue(MockProjects)]
    ensures GetProjects(GetProjects(map[]).store) == GetProjects(map[])
  {
    assert Scope(map[]) == "";
    assert Key(map[], ProjectsKey) == ProjectsKey;
    GetProjectsStable(map[]);
  }

  /** Neither the seeding reads nor the saves touch the current-user record. */
  lemma RepositoryKeepsUser(s: Store, projects: seq<Project>, tasks: seq<Task>)
    ensures CurrentUserId(GetProjects(s).store) == CurrentUserId(s)
    ensures CurrentUserId(GetTasks(s).store) == CurrentUserId(s)
    ensures CurrentUserId(SaveProjects(s, projects)) == CurrentUserId(s)
    ensures CurrentUserId(SaveTasks(s, tasks)) == CurrentUserId(s)
  {
    EntityKeysDistinct(s, "");
  }

  /** A saved project list is what the next read returns, and nothing is seeded. */
  lemma SaveThenGetProjects(s: Store, projects: seq<Project>)
    ensures GetProjects(SaveProjects(s, projects)) == Out(SaveProjects(s, projects), projects)
  {
    EntityKeysDistinct(s, "");
    WriteKeepsScope(s, Key(s, ProjectsKey), ProjectsValue(projects));
  }

  /** A saved task list is what the next read returns, and nothing is seeded. */
  lemma SaveThenGetTasks(s: Store, tasks: seq<Task>)
    ensures GetTasks(SaveTasks(s, tasks)) == Out(SaveTasks(s, tasks), tasks)
  {
    EntityKeysDistinct(s, "");
    WriteKeepsScope(s, Key(s, TasksKey), TasksValue(tasks));
  }

  /** Writing the projects key (seeding or saving) does not affect any other repository read. */
  lemma ProjectsWriteIsolated(s: Store, v: Value)
    ensures var t := s[Key(s, ProjectsKey) := v];
      && Scope(t) == Scope(s)
      && GetTasks(t).value == GetTasks(s).value
      && GetTasks(t).store == GetTasks(s).store[Key(s, ProjectsKey) := v]
      && GetSettings(t) == GetSettings(s)
      && forall id :: GetProjectDocuments(t, id) == GetProjectDocuments(s, id)
  {
    EntityKeysDistinct(s, "");
    WriteKeepsScope(s, Key(s, ProjectsKey), v);
    forall id ensures GetProjectDocuments(s[Key(s, ProjectsKey) := v], id) == GetProjectDocuments(s, id) {
      EntityKeysDistinct(s, id);
    }
  }

  /** Writing the tasks key does not affect the projects, settings or document reads. */
  lemma TasksWriteIsolated(s: Store, v: Value)
    ensures var t := s[Key(s, TasksKey) := v];
      && Scope(t) == Scope(s)
      && GetProjects(t).value == GetProjects(s).value
      && GetProjects(t).store == GetProjects(s).store[Key(s, TasksKey) := v]
      && GetSettings(t) == GetSettings(s)
      && forall id :: GetProjectDocuments(t, id) == GetProjectDocuments(s, id)
  {
    EntityKeysDistinct(s, "");
    WriteKeepsScope(s, Key(s, TasksKey), v);
    forall id ensures GetProjectDocuments(s[Key(s, TasksKey) := v], id) == GetProjectDocuments(s, id) {
      EntityKeysDistinct(s, id);
    }
  }

  // ---------------------------------------------------------------- export and import

  /** The ids of a project list. */
  function ProjectIds(projects: seq<Project>): set<string> {
    set i | 0 <= i < |projects| :: projects[i].id
  }

  /** The exported object `{ projects, tasks, settings, documents }`, before JSON encoding. */
  datatype Snapshot = Snapshot(
    projects: seq<Project>,
    tasks: seq<Task>,
    settings: Settings,
    documents: map<string, seq<Document>>)

  /** `exportAllData()`: the current projects, tasks and settings, and the documents of exactly
      the current projects. The two list reads may seed the built-in data. */
  function ExportAllData(s: Store): (r: Out<Snapshot>)
    ensures r.value.projects == GetProjects(s).value
    ensures r.value.tasks == GetTasks(s).value
    ensures r.value.settings == GetSettings(s)
    ensures r.value.documents.Keys == ProjectIds(r.value.projects)
    ensures forall id :: id in r.value.documents ==> r.value.documents[id] == GetProjectDocuments(s, id)
  {
    var rp := GetProjects(s);
    var rt := GetTasks(rp.store);
    ProjectsWriteIsolated(s, ProjectsValue(MockProjects));
    TasksWriteIsolated(rp.store, TasksValue(MockTasks));
    var documents := map id | id in ProjectIds(rp.value) :: GetProjectDocuments(rt.store, id);
    Out(rt.store, Snapshot(rp.value, rt.value, GetSettings(rt.store), documents))
  }

  /** What `JSON.parse(jsonData)` yields for an import: either it throws, or it gives an object
      whose four fields are each present (and truthy) or not. An array or an object is always
      truthy, so `Some([])` and `Some(map[])` count as present. */
  datatype ImportData =
    | Unparseable
    | Parsed(
        projects: Option<seq<Project>>,
        tasks: Option<seq<Task>>,
        settings: Option<Settings>,
        documents: Option<map<string, seq<Document>>>)

  /** The structure check `data.projects && data.tasks && data.settings && data.documents`. */
  predicate HasAllParts(d: ImportData) {
    d.Parsed? && d.projects.Some? && d.tasks.Some? && d.settings.Some? && d.documents.Some?
  }

  /** `s` and `t` hold the same entry (or both none) at `k`. */
  predicate AgreeAt(s: Store, t: Store, k: string) {
    (k in s <==> k in t) && (k in s ==> s[k] == t[k])
  }

  /** `s` and `t` agree at every key that does not start with `prefix`. */
  ghost predicate SameOutside(s: Store, t: Store, prefix: string) {
    forall k :: !StartsWith(k, prefix) ==> AgreeAt(s, t, k)
  }

  /** Every document key starts with the document prefix; no other repository key does. */
  lemma DocsPrefixSeparates(s: Store, pid: string)
    ensures StartsWith(Key(s, DocsBase(pid)), ProjectDocsPrefix)
    ensures !StartsWith(CurrentUserKey, ProjectDocsPrefix)
    ensures !StartsWith(Key(s, ProjectsKey), ProjectDocsPrefix)
    ensures !StartsWith(Key(s, TasksKey), ProjectDocsPrefix)
    ensures !StartsWith(Key(s, SettingsKey), ProjectDocsPrefix)
  {
    assert Key(s, DocsBase(pid)) == ProjectDocsPrefix + (pid + Scope(s));
    assert CurrentUserKey[3] != ProjectDocsPrefix[3];
    assert Key(s, ProjectsKey)[10] != ProjectDocsPrefix[10];
    assert Key(s, TasksKey)[3] != ProjectDocsPrefix[3];
    assert Key(s, SettingsKey)[3] != ProjectDocsPrefix[3];
  }

  /** Changing only document entries changes none of the other repository reads. */
  lemma SameOutsideDocsKeepsReads(s: Store, t: Store)
    requires SameOutside(s, t, ProjectDocsPrefix)
    ensures Scope(t) == Scope(s)
    ensures GetProjects(t).value == GetProjects(s).value
    ensures GetTasks(t).value == GetTasks(s).value
    ensures GetSettings(t) == GetSettings(s)
    ensures GetProjects(s).store == s ==> GetProjects(t).store == t
    ensures GetTasks(s).store == s ==> GetTasks(t).store == t
  {
    DocsPrefixSeparates(s, "");
    assert AgreeAt(s, t, CurrentUserKey);
    assert AgreeAt(s, t, Key(s, ProjectsKey));
    assert AgreeAt(s, t, Key(s, TasksKey));
    assert AgreeAt(s, t, Key(s, SettingsKey));
  }

  /** The keys of the document lists of the projects `ids`. */
  function DocKeys(s: Store, ids: set<string>): set<string> {
    set id | id in ids :: Key(s, DocsBase(id))
  }

  /** The project id inside a document key: what lies between the prefix and the scope. */
  function DocsIdOf(s: Store, k: string): string {
    var n := |ProjectDocsPrefix|;
    var m := |Scope(s)|;
    if n + m <= |k| then k[n..|k| - m] else ""
  }

  /** `DocsIdOf` recovers the project id from its document key. */
  lemma DocsIdOfKey(s: Store, id: string)
    ensures DocsIdOf(s, Key(s, DocsBase(id))) == id
  {
    var k := Key(s, DocsBase(id));
    assert k == ProjectDocsPrefix + id + Scope(s);
    assert k[|ProjectDocsPrefix|..|k| - |Scope(s)|] == id;
  }

  /** Every document key of `ids` names its project. */
  lemma DocKeysNameProject(s: Store, ids: set<string>, k: string)
    requires k in DocKeys(s, ids)
    ensures DocsIdOf(s, k) in ids && k == Key(s, DocsBase(DocsIdOf(s, k)))
  {
    var id :| id in ids && k == Key(s, DocsBase(id));
    DocsIdOfKey(s, id);
  }

  /** A project's document key is among the document keys of `ids` exactly when the project
      is, and every such key carries the document prefix. */
  lemma DocKeysMembership(s: Store, ids: set<string>, id: string, k: string)
    ensures Key(s, DocsBase(id)) in DocKeys(s, ids) <==> id in ids
    ensures k in DocKeys(s, ids) ==> StartsWith(k, ProjectDocsPrefix)
  {
    if Key(s, DocsBase(id)) in DocKeys(s, ids) {
      DocKeysNameProject(s, ids, Key(s, DocsBase(id)));
      DocsIdOfKey(s, id);
    }
    if k in DocKeys(s, ids) {
      DocKeysNameProject(s, ids, k);
      DocsPrefixSeparates(s, DocsIdOf(s, k));
    }
  }

  /** Writes one document list per entry of `documents`: the
      `Object.entries(data.documents).forEach(...)` loop of the import. Distinct project ids
      address distinct keys, so the writes commute and the order of the entries does not
      matter. */
  function WriteDocuments(s: Store, documents: map<string, seq<Document>>): (r: Store)
    ensures SameOutside(s, r, ProjectDocsPrefix)
    ensures forall k :: k !in DocKeys(s, documents.Keys) ==> AgreeAt(s, r, k)
    ensures Scope(r) == Scope(s)
    ensures forall id :: GetProjectDocuments(r, id) ==
                         (if id in documents then documents[id] else GetProjectDocuments(s, id))
  {
    var ks := DocKeys(s, documents.Keys);
    var r := map k | k in s.Keys + ks ::
      if k in ks then DocKeysNameProject(s, documents.Keys, k); DocumentsValue(documents[DocsIdOf(s, k)])
      else s[k];
    WriteDocumentsFrame(s, documents, r);
    r
  }

  /** The frame and the reads of `WriteDocuments`. */
  lemma WriteDocumentsFrame(s: Store, documents: map<string, seq<Document>>, r: Store)
    requires r.Keys == s.Keys + DocKeys(s, documents.Keys)
    requires forall k :: k in r && k !in DocKeys(s, documents.Keys) ==> r[k] == s[k]
    requires forall id :: id in documents ==> r[Key(s, DocsBase(id))] == DocumentsValue(documents[id])
    ensures SameOutside(s, r, ProjectDocsPrefix)
    ensures Scope(r) == Scope(s)
    ensures forall id :: GetProjectDocuments(r, id) ==
                         (if id in documents then documents[id] else GetProjectDocuments(s, id))
  {
    forall k | !StartsWith(k, ProjectDocsPrefix) ensures AgreeAt(s, r, k) {
      DocKeysMembership(s, documents.Keys, "", k);
    }
    SameOutsideDocsKeepsReads(s, r);
    forall id | id !in documents ensures GetProjectDocuments(r, id) == GetProjectDocuments(s, id) {
      DocKeysMembership(s, documents.Keys, id, "");
    }
  }

  /** The keys an import writes: the three entity keys and the document keys of the imported
      projects, all in the current scope. */
  function ImportedKeys(s: Store, documents: map<string, seq<Document>>): set<string> {
    {Key(s, ProjectsKey), Key(s, TasksKey), Key(s, SettingsKey)} + DocKeys(s, documents.Keys)
  }

  /** `importAllData(jsonData)`: `false` and no change when the text does not parse or a part
      is missing; otherwise `true` after saving the projects, the tasks, the settings and every
      document list of the import, in that order. No other entry changes. */
  function ImportAllData(s: Store, d: ImportData): (r: Out<bool>)
    ensures r.value <==> HasAllParts(d)
    ensures !r.value ==> r.store == s
    ensures r.value ==> Scope(r.store) == Scope(s)
    ensures r.value ==> GetProjects(r.store) == Out(r.store, d.projects.value)
    ensures r.value ==> GetTasks(r.store) == Out(r.store, d.tasks.value)
    ensures r.value ==> GetSettings(r.store) == d.settings.value
    ensures r.value ==> forall id :: GetProjectDocuments(r.store, id) ==
                                     (if id in d.documents.value then d.documents.value[id] else GetProjectDocuments(s, id))
    ensures r.value ==> forall k :: k !in ImportedKeys(s, d.documents.value) ==> AgreeAt(s, r.store, k)
  {
    if !HasAllParts(d) then Out(s, false)
    else
      var s1 := SaveProjects(s, d.projects.value);
      ProjectsWriteIsolated(s, ProjectsValue(d.projects.value));
      var s2 := SaveTasks(s1, d.tasks.value);
      TasksWriteIsolated(s1, TasksValue(d.tasks.value));
      SaveThenGetTasks(s1, d.tasks.value);
      var s3 := SaveSettings(s2, d.settings.value);
      ImportSettingsIsolated(s2, d.settings.value);
      var s4 := WriteDocuments(s3, d.documents.value);
      DocKeysScope(s, s3, d.documents.value.Keys);
      SameOutsideDocsKeepsReads(s3, s4);
      DocsPrefixSeparates(s4, "");
      assert AgreeAt(s3, s4, Key(s4, ProjectsKey));
      assert AgreeAt(s3, s4, Key(s4, TasksKey));
      Out(s4, true)
  }

  /** Writing the settings key leaves the scope, both lists and every document list alone. */
  lemma ImportSettingsIsolated(s: Store, settings: Settings)
    ensures var t := SaveSettings(s, settings);
      && Scope(t) == Scope(s)
      && (Key(s, ProjectsKey) in t <==> Key(s, ProjectsKey) in s)
      && (Key(s, ProjectsKey) in s ==> t[Key(s, ProjectsKey)] == s[Key(s, ProjectsKey)])
      && (Key(s, TasksKey) in t <==> Key(s, TasksKey) in s)
      && (Key(s, TasksKey) in s ==> t[Key(s, TasksKey)] == s[Key(s, TasksKey)])
      && forall id :: GetProjectDocuments(t, id) == GetProjectDocuments(s, id)
  {
    EntityKeysDistinct(s, "");
    WriteKeepsScope(s, Key(s, SettingsKey), SettingsValue(settings));
    forall id ensures GetProjectDocuments(SaveSettings(s, settings), id) == GetProjectDocuments(s, id) {
      EntityKeysDistinct(s, id);
    }
  }

  /** The parsed form of an exported snapshot: every part is present. */
  function AsImport(x: Snapshot): (d: ImportData)
    ensures HasAllParts(d)
  {
    Parsed(Some(x.projects), Some(x.tasks), Some(x.settings), Some(x.documents))
  }

  /** Importing what was just exported succeeds, and exporting again yields the same
      snapshot without seeding anything. */
  lemma ExportImportExport(s: Store)
    ensures var e := ExportAllData(s);
      var i := ImportAllData(e.store, AsImport(e.value));
      && i.value
      && ExportAllData(i.store) == Out(i.store, e.value)
  {
    var e := ExportAllData(s);
    var i := ImportAllData(e.store, AsImport(e.value));
    var e2 := ExportAllData(i.store);
    assert e2.value.projects == e.value.projects;
    assert e2.value.tasks == e.value.tasks;
    assert e2.value.documents == e.value.documents;
  }

  // ---------------------------------------------------------------- clear and cascade delete

  /** The `userId` of `clearAllData`: the current user's id, or `''` when there is no current
      user or the record does not parse. */
  function ClearUserId(s: Store): string {
    match CurrentUserId(s)
    case Some(id) => id
    case None => ""
  }

  /** The keys `clearAllData` selects: `seo` keys containing the user id when there is one;
      otherwise `seo` keys without an underscore. */
  predicate ClearSelects(userId: string, k: string) {
    StartsWith(k, "seo") && (if userId != "" then Includes(k, userId) else '_' !in k)
  }

  /** `clearAllData()`: removes the selected keys and nothing else. Signed in as `u`, exactly
      the `seo` keys containing `u` go; otherwise exactly the `seo` keys without an
      underscore. */
  function ClearAllData(s: Store): (r: Store)
    ensures r.Keys <= s.Keys
    ensures forall k :: k in r ==> r[k] == s[k]
    ensures forall k :: k in s && !StartsWith(k, "seo") ==> k in r
    ensures ClearUserId(s) != "" ==>
      forall k :: k in s && StartsWith(k, "seo") ==> (k in r <==> !Includes(k, ClearUserId(s)))
    ensures ClearUserId(s) == "" ==>
      forall k :: k in s && StartsWith(k, "seo") ==> (k in r <==> '_' in k)
  {
    var u := ClearUserId(s);
    map k | k in s && !ClearSelects(u, k) :: s[k]
  }

  /** Signed in with a non-empty id, clearing removes that user's projects, tasks, settings and
      every document list. */
  lemma ClearSignedIn(s: Store, pid: string)
    requires ClearUserId(s) != ""
    ensures Key(s, ProjectsKey) !in ClearAllData(s)
    ensures Key(s, TasksKey) !in ClearAllData(s)
    ensures Key(s, SettingsKey) !in ClearAllData(s)
    ensures Key(s, DocsBase(pid)) !in ClearAllData(s)
  {
    var u := ClearUserId(s);
    assert Scope(s) == "_" + u;
    forall base | StartsWith(base, "seo") ensures ClearSelects(u, base + Scope(s)) {
      assert base + Scope(s) == (base + "_") + u;
      IncludesSuffix(base + "_", u);
    }
    assert StartsWith(ProjectsKey, "seo");
    assert StartsWith(TasksKey, "seo");
    assert StartsWith(SettingsKey, "seo");
    assert StartsWith(DocsBase(pid), "seo");
  }

  /** With no current user, clearing removes the anonymous projects, tasks and settings, and
      also the registered-user table and the session; the anonymous document lists survive
      because their keys contain an underscore. */
  lemma ClearAnonymous(s: Store, pid: string)
    requires CurrentUserId(s).None?
    ensures ProjectsKey !in ClearAllData(s)
    ensures TasksKey !in ClearAllData(s)
    ensures SettingsKey !in ClearAllData(s)
    ensures UsersKey !in ClearAllData(s)
    ensures SessionKey !in ClearAllData(s)
    ensures CurrentUserKey !in ClearAllData(s)
    ensures Key(s, DocsBase(pid)) in s ==> Key(s, DocsBase(pid)) in ClearAllData(s)
  {
    assert Scope(s) == "" && ClearUserId(s) == "";
    assert ClearSelects("", ProjectsKey) && ClearSelects("", TasksKey) && ClearSelects("", SettingsKey);
    assert ClearSelects("", UsersKey) && ClearSelects("", SessionKey) && ClearSelects("", CurrentUserKey);
    assert Key(s, DocsBase(pid))[14] == '_';
    assert !ClearSelects("", Key(s, DocsBase(pid)));
  }

  /** Clearing for the user `1` also removes the projects of the user `12`, whose key contains
      `1` as well. */
  lemma ClearReachesOtherUsers()
    ensures var s := map[CurrentUserKey := UserValue(User("1", "a@b.c", None)),
                         "seoProjects_12" := ProjectsValue([])];
      "seoProjects_12" !in ClearAllData(s)
  {
    var s := map[CurrentUserKey := UserValue(User("1", "a@b.c", None)),
                 "seoProjects_12" := ProjectsValue([])];
    assert ClearUserId(s) == "1";
    assert OccursAt("seoProjects_12", "1", 12);
    IncludesIffOccurs("seoProjects_12", "1");
  }

  /** The filter `project => !projectIds.includes(project.id)`. */
  function NotListed(ids: seq<string>): Project -> bool {
    (p: Project) => p.id !in ids
  }

  /** The filter `task => !projectIds.includes(task.projectId)`. */
  function TaskNotListed(ids: seq<string>): Task -> bool {
    (t: Task) => t.projectId !in ids
  }

  /** Removes the keys `ks`, as repeated `localStorage.removeItem`. */
  function RemoveKeys(s: Store, ks: set<string>): (r: Store)
    ensures r.Keys == s.Keys - ks
    ensures forall k :: k in r ==> r[k] == s[k]
  {
    map k | k in s && k !in ks :: s[k]
  }

  /** Reading or saving the projects list leaves the scope, the task list, the settings and
      the document lists as they were, and the saved list is what the next read returns. */
  lemma ProjectsStepIsolated(s: Store, projects: seq<Project>)
    ensures var t := SaveProjects(GetProjects(s).store, projects);
      && Scope(t) == Scope(s)
      && GetProjects(t) == Out(t, projects)
      && GetTasks(t).value == GetTasks(s).value
      && (GetTasks(s).store == s ==> GetTasks(t).store == t)
      && GetSettings(t) == GetSettings(s)
      && forall id :: GetProjectDocuments(t, id) == GetProjectDocuments(s, id)
  {
    var s0 := GetProjects(s).store;
    ProjectsWriteIsolated(s, ProjectsValue(MockProjects));
    ProjectsWriteIsolated(s0, ProjectsValue(projects));
    SaveThenGetProjects(s0, projects);
  }

  /** Reading the projects list, which may seed it, keeps a stored task list stored. */
  lemma ProjectsReadIsolated(s: Store)
    ensures GetProjects(GetProjects(s).store).store == GetProjects(s).store
    ensures GetTasks(s).store == s ==> GetTasks(GetProjects(s).store) == Out(GetProjects(s).store, GetTasks(s).value)
    ensures Scope(GetProjects(s).store) == Scope(s)
  {
    ProjectsWriteIsolated(s, ProjectsValue(MockProjects));
    GetProjectsStable(s);
  }

  /** Reading or saving the task list leaves the scope, the settings and the document lists
      as they were, keeps a stored projects list stored, and the saved list is what the next
      read returns. */
  lemma TasksStepIsolated(s: Store, tasks: seq<Task>)
    ensures var t := SaveTasks(GetTasks(s).store, tasks);
      && Scope(t) == Scope(s)
      && GetTasks(t) == Out(t, tasks)
      && GetProjects(t).value == GetProjects(s).value
      && (GetProjects(s).store == s ==> GetProjects(t).store == t)
      && GetSettings(t) == GetSettings(s)
      && forall id :: GetProjectDocuments(t, id) == GetProjectDocuments(s, id)
  {
    var s0 := GetTasks(s).store;
    TasksWriteIsolated(s, TasksValue(MockTasks));
    TasksWriteIsolated(s0, TasksValue(tasks));
    SaveThenGetTasks(s0, tasks);
  }

  /** Removing the document keys of `ids` touches no other entry. */
  lemma RemoveDocsIsolated(s: Store, ids: set<string>)
    ensures var r := RemoveKeys(s, DocKeys(s, ids));
      && SameOutside(s, r, ProjectDocsPrefix)
      && (forall id :: id in ids ==> Key(s, DocsBase(id)) !in r)
      && (forall id :: id !in ids ==> GetProjectDocuments(r, id) == GetProjectDocuments(s, id))
  {
    var r := RemoveKeys(s, DocKeys(s, ids));
    forall k | !StartsWith(k, ProjectDocsPrefix) ensures AgreeAt(s, r, k) {
      DocKeysMembership(s, ids, "", k);
    }
    SameOutsideDocsKeepsReads(s, r);
    forall id | id !in ids ensures GetProjectDocuments(r, id) == GetProjectDocuments(s, id) {
      DocKeysMembership(s, ids, id, "");
    }
  }

  /** The first step of `deleteProjects`: read the projects and save those not listed. */
  function DropProjects(s: Store, ids: seq<string>): (r: Store)
    ensures Scope(r) == Scope(s)
    ensures forall k :: k != Key(s, ProjectsKey) ==> AgreeAt(s, r, k)
    ensures GetProjects(r) == Out(r, Filter(GetProjects(s).value, NotListed(ids)))
    ensures GetTasks(r).value == GetTasks(s).value
    ensures GetSettings(r) == GetSettings(s)
    ensures forall id :: GetProjectDocuments(r, id) == GetProjectDocuments(s, id)
  {
    var rp := GetProjects(s);
    ProjectsStepIsolated(s, Filter(rp.value, NotListed(ids)));
    ProjectsStepFrame(s, Filter(rp.value, NotListed(ids)));
    SaveProjects(rp.store, Filter(rp.value, NotListed(ids)))
  }

  /** The second step of `deleteProjects`: read the tasks and save those of unlisted
      projects. */
  function DropTasks(s: Store, ids: seq<string>): (r: Store)
    requires GetProjects(s).store == s
    ensures Scope(r) == Scope(s)
    ensures forall k :: k != Key(s, TasksKey) ==> AgreeAt(s, r, k)
    ensures GetTasks(r) == Out(r, Filter(GetTasks(s).value, TaskNotListed(ids)))
    ensures GetProjects(r) == Out(r, GetProjects(s).value)
    ensures GetSettings(r) == GetSettings(s)
    ensures forall id :: GetProjectDocuments(r, id) == GetProjectDocuments(s, id)
  {
    var rt := GetTasks(s);
    TasksStepIsolated(s, Filter(rt.value, TaskNotListed(ids)));
    TasksStepFrame(s, Filter(rt.value, TaskNotListed(ids)));
    SaveTasks(rt.store, Filter(rt.value, TaskNotListed(ids)))
  }

  /** Reading then saving the projects list writes the projects key and nothing else. */
  lemma ProjectsStepFrame(s: Store, projects: seq<Project>)
    ensures forall k :: k != Key(s, ProjectsKey) ==> AgreeAt(s, SaveProjects(GetProjects(s).store, projects), k)
  {
    ProjectsReadIsolated(s);
  }

  /** Reading then saving the task list writes the tasks key and nothing else. */
  lemma TasksStepFrame(s: Store, tasks: seq<Task>)
    ensures forall k :: k != Key(s, TasksKey) ==> AgreeAt(s, SaveTasks(GetTasks(s).store, tasks), k)
  {
    TasksWriteIsolated(s, TasksValue(MockTasks));
  }

  /** The project ids of a list, as a set. */
  function IdSet(ids: seq<string>): set<string> {
    set i | 0 <= i < |ids| :: ids[i]
  }

  /** Document keys depend on the store only through its scope. */
  lemma DocKeysScope(s: Store, t: Store, ids: set<string>)
    requires Scope(s) == Scope(t)
    ensures DocKeys(s, ids) == DocKeys(t, ids)
  {
  }

  /** The last step of `deleteProjects`: remove the document list of every listed project. */
  function DropDocuments(s: Store, ids: seq<string>): (r: Store)
    ensures SameOutside(s, r, ProjectDocsPrefix)
    ensures forall k :: k !in DocKeys(s, IdSet(ids)) ==> AgreeAt(s, r, k)
    ensures forall id :: id in ids ==> Key(s, DocsBase(id)) !in r
    ensures forall id :: id !in ids ==> GetProjectDocuments(r, id) == GetProjectDocuments(s, id)
  {
    var idSet := IdSet(ids);
    RemoveDocsIsolated(s, idSet);
    RemoveKeys(s, DocKeys(s, idSet))
  }

  /** `deleteProjects(projectIds)`: drops the listed projects, their tasks and their document
      lists, keeping the order of what remains; every other entry keeps its value. */
  function DeleteProjects(s: Store, ids: seq<string>): (r: Store)
    ensures Scope(r) == Scope(s)
    ensures GetProjects(r).value == Filter(GetProjects(s).value, NotListed(ids))
    ensures GetTasks(r).value == Filter(GetTasks(s).value, TaskNotListed(ids))
    ensures forall k :: k != Key(s, ProjectsKey) && k != Key(s, TasksKey) && k !in DocKeys(s, IdSet(ids)) ==>
      AgreeAt(s, r, k)
    ensures GetProjects(r).store == r && GetTasks(r).store == r
    ensures forall id :: id in ids ==> Key(s, DocsBase(id)) !in r
    ensures forall id :: id !in ids ==> GetProjectDocuments(r, id) == GetProjectDocuments(s, id)
    ensures GetSettings(r) == GetSettings(s)
  {
    DeleteProjectsSteps(s, ids);
    DeleteProjectsFrame(s, ids);
    DropDocuments(DropTasks(DropProjects(s, ids), ids), ids)
  }

  /** What the three steps of `deleteProjects` do together. */
  lemma DeleteProjectsSteps(s: Store, ids: seq<string>)
    ensures var r := DropDocuments(DropTasks(DropProjects(s, ids), ids), ids);
      && Scope(r) == Scope(s)
      && GetProjects(r) == Out(r, Filter(GetProjects(s).value, NotListed(ids)))
      && GetTasks(r) == Out(r, Filter(GetTasks(s).value, TaskNotListed(ids)))
      && (forall id :: id in ids ==> Key(s, DocsBase(id)) !in r)
      && (forall id :: id !in ids ==> GetProjectDocuments(r, id) == GetProjectDocuments(s, id))
      && GetSettings(r) == GetSettings(s)
  {
    var s1 := DropProjects(s, ids);
    var s2 := DropTasks(s1, ids);
    var r := DropDocuments(s2, ids);
    SameOutsideDocsKeepsReads(s2, r);
    DeleteProjectsFrame(s, ids);
  }

  /** The three steps of `deleteProjects` write the scoped projects and tasks keys and the
      listed document keys, and nothing else. */
  lemma DeleteProjectsFrame(s: Store, ids: seq<string>)
    ensures var r := DropDocuments(DropTasks(DropProjects(s, ids), ids), ids);
      forall k :: k != Key(s, ProjectsKey) && k != Key(s, TasksKey) && k !in DocKeys(s, IdSet(ids)) ==>
        AgreeAt(s, r, k)
  {
    var s1 := DropProjects(s, ids);
    var s2 := DropTasks(s1, ids);
    var r := DropDocuments(s2, ids);
    DocKeysScope(s, s2, IdSet(ids));
    assert Key(s1, TasksKey) == Key(s, TasksKey);
    forall k | k != Key(s, ProjectsKey) && k != Key(s, TasksKey) && k !in DocKeys(s, IdSet(ids))
      ensures AgreeAt(s, r, k)
    {
      assert AgreeAt(s, s1, k) && AgreeAt(s1, s2, k) && AgreeAt(s2, r, k);
    }
  }

  /** After the delete a project (task) is listed exactly when it was before and is not (does
      not belong to) one of the deleted projects. */
  lemma DeleteProjectsMembership(s: Store, ids: seq<string>, p: Project, t: Task)
    ensures p in GetProjects(DeleteProjects(s, ids)).value <==> p in GetProjects(s).value && p.id !in ids
    ensures t in GetTasks(DeleteProjects(s, ids)).value <==> t in GetTasks(s).value && t.projectId !in ids
  {
    FilterMembership(GetProjects(s).value, NotListed(ids), p);
    FilterMembership(GetTasks(s).value, TaskNotListed(ids), t);
  }
}
