# SEO project tracker: browser persistence and bookkeeping, in Dafny

This project models the client-side core of a Next.js SEO project tracker. The tracker keeps
projects, tasks, project documents and settings in the browser's `localStorage`. Those entries
are scoped to the signed-in user. It has two authentication back ends: a local user table,
and a remote service reached through a tool bridge, with a mock used when the bridge is
absent. On top of that core sit the components that read, count, sort and edit the data.

What is modelled:

- **Store** (`store.dfy`): `localStorage` as a map from key to decoded value. `Out<T>` pairs
  a result with the store that an operation leaves behind.
- **DataService** (`data_service.dfy`): the user-scoped repository.
  - The key of an entity is its base key plus `_<user id>`; with no current user it is the
    bare base key.
  - A read of a missing entry seeds the built-in projects or tasks.
  - Also modelled: export, import, clear, and the cascade delete of projects.
- **AuthService** and **UserContext**: the local user table and the React provider above it.
- **SupabaseAuth** and **SupabaseUserContext**: the remote service, or its mock, and its
  provider.
- **TaskList**: creating, editing, deleting and completing tasks. Each of these also recounts
  the project's totals.
- **DemoData**: the generated demo project and its five tasks. Their task dependencies are
  acyclic.
- **BulkActions**: multi-select delete.
- **Dashboard**: statistics, upcoming tasks, and the dashboard's load effect.
- **ProjectViews**: the two project lists (the home-page section and the projects page).
  - Case-insensitive search.
  - Sorting on five keys.
  - Creating a project, and the free-tier limit on creating one.
  - The load effects.
- **Unscoped**: the components' own reads and writes of the *bare* `seoProjects`/`seoTasks`
  keys, and how these relate to the scoped repository.
- **Completion**: the rounded completion percentage.
- **Sorting**: a generic stable sort standing in for `Array.prototype.sort`.
- **ResetConfirm**: the password-reset confirmation form.
- **UserProfile** and **Navigation**: the profile card, the avatar and the navigation menu.
- **Theme** (the theme registry) and **SettingsPage** (the settings page's state).

Inputs the program takes from outside become parameters:
- the clock (`now`, in milliseconds; several reads within one operation become one input);
- every `Math.random()` draw (a real in [0, 1));
- generated ids;
- whether the remote bridge exists, and what it replies;
- the result of the reset request;
- the system colour-scheme preference.

The components use the same `getPriorityColor`/`getStatusColor` maps as the task list, and
the Dashboard's copies of the built-in projects and tasks equal the repository's. So the model
defines each of these once.

Some behaviour is modelled exactly as the code has it, and proved as such:
- `clearAllData` removes every `seo` key that *contains* the user id. The keys of other users
  whose ids contain it go too.
- With nobody signed in, `clearAllData` keeps the document lists but removes the user table
  and the session.
- The components write the bare keys. While a user is signed in, the scoped repository never
  sees those writes.
- On a store with no project entry, the repository's first read seeds the four built-in
  projects. So the demo project is never written there.
- The demo save replaces every stored task.
- A refused remote sign-in clears the provider's user, but the stored current user stays.
- Toggling an already selected project twice restores the selection only as a set.

## Model

| member | source | states |
|---|---|---|
| DataService.GetUserKeyCases | src/services/dataService.ts:143-161 | the three cases of the key: explicit id, parsed current user, bare base key |
| DataService.ScopesSeparate | src/services/dataService.ts:143-161 | stores with different current users (or one anonymous) never address the same scoped key |
| DataService.WriteKeepsScope | src/services/dataService.ts:143-161 | writing any key but the current-user record keeps the scope |
| DataService.EntityKeysDistinct | src/services/dataService.ts:137-140 | projects, tasks, settings and document keys are pairwise different and never the current-user key |
| DataService.DocsKeysInjective | src/services/dataService.ts:222-245 | document keys of different projects differ |
| DataService.GetProjects | src/services/dataService.ts:166-183 | the read leaves the store as it was, or only seeds the built-in projects at the scoped key; an empty entry counts as missing |
| DataService.GetProjectsCases | src/services/dataService.ts:166-183 | missing or empty entry: seed and return built-ins; parsed: return it; any other entry: built-ins without a write |
| DataService.GetTasks | src/services/dataService.ts:192-209 | as for projects, with the built-in tasks; an empty entry counts as missing |
| DataService.GetTasksCases | src/services/dataService.ts:192-209 | the four outcomes of reading the task list: missing, empty, parsed, unparseable |
| DataService.GetProjectTasks | src/services/dataService.ts:211-213 | the stored tasks of the project in stored order, each as often as stored (a selection of the list) |
| Seqs.FilterUnique | src/services/dataService.ts:211-213 | a list that selects from the stored tasks in order with the project's multiplicities is the filter itself |
| Seqs.SelectsMembership | src/services/dataService.ts:211-213 | a selection holds exactly the kept values and never more often than the list |
| DataService.SaveProjectDocuments | src/services/dataService.ts:222-245 | the saved documents are what the next read returns |
| DataService.SaveSettings | src/services/dataService.ts:248-269 | the saved settings are what the next read returns |
| DataService.GetProjectsStable | src/services/dataService.ts:166-183 | a second read returns the same list and writes nothing |
| DataService.GetTasksStable | src/services/dataService.ts:192-209 | a second read returns the same list and writes nothing |
| DataService.FreshStoreSeedsProjects | src/services/dataService.ts:166-183 | on an empty store the first read writes and returns the four built-in projects; the second agrees |
| DataService.RepositoryKeepsUser | src/services/dataService.ts:166-219 | the reads and saves never change the current user |
| DataService.SaveThenGetProjects | src/services/dataService.ts:166-189 | save then read returns the saved projects with no further write |
| DataService.SaveThenGetTasks | src/services/dataService.ts:192-219 | save then read returns the saved tasks with no further write |
| DataService.ProjectsWriteIsolated | src/services/dataService.ts:185-189 | a projects write changes no task, settings or document read |
| DataService.TasksWriteIsolated | src/services/dataService.ts:215-219 | a tasks write changes no project, settings or document read |
| DataService.ExportAllData | src/services/dataService.ts:272-288 | the snapshot holds the current lists and settings and the documents of exactly the current projects |
| DataService.DocsPrefixSeparates | src/services/dataService.ts:137-140 | only document keys start with the document prefix |
| DataService.SameOutsideDocsKeepsReads | src/services/dataService.ts:312-314 | changing document entries only leaves the scope, lists and settings alone |
| DataService.WriteDocuments | src/services/dataService.ts:312-314 | after the document loop every imported project reads its imported list, every other project keeps its own, and no key outside the written document keys changes |
| DataService.ImportAllData | src/services/dataService.ts:291-321 | true exactly when all four parts are present; false leaves the store unchanged; true makes every read return the imported data and changes no key outside the imported ones |
| DataService.ImportSettingsIsolated | src/services/dataService.ts:306-309 | the settings write keeps the scope, both lists and all document lists |
| DataService.ExportImportExport | src/services/dataService.ts:272-321 | importing an export succeeds and exporting again gives the same snapshot with no write |
| DataService.ClearAllData | src/services/dataService.ts:324-357 | only entries are removed, never changed; keys not starting with `seo` stay; signed in exactly the `seo` keys containing the id go, anonymous exactly those without `_` |
| DataService.ClearSignedIn | src/services/dataService.ts:340-347 | signed in, the user's projects, tasks, settings and every document list are removed |
| DataService.ClearAnonymous | src/services/dataService.ts:348-356 | anonymous: bare lists, settings, user table, session and current-user record go; document lists stay |
| DataService.ClearReachesOtherUsers | src/services/dataService.ts:340-347 | clearing for user `1` also removes `seoProjects_12` |
| DataService.RemoveKeys | src/services/dataService.ts:382-386 | exactly the named keys disappear, the rest keep their values |
| DataService.ProjectsStepIsolated | src/services/dataService.ts:364-370 | read-then-save of projects returns the saved list and keeps tasks, settings and documents |
| DataService.ProjectsReadIsolated | src/services/dataService.ts:166-183 | the seeding read is stable and keeps a stored task list stored |
| DataService.TasksStepIsolated | src/services/dataService.ts:373-379 | read-then-save of tasks returns the saved list and keeps projects, settings and documents |
| DataService.RemoveDocsIsolated | src/services/dataService.ts:382-386 | removing document keys of some projects touches no other entry |
| DataService.DropProjects | src/services/dataService.ts:364-370 | the saved projects are the unlisted ones; no key but the projects key changes |
| DataService.DropTasks | src/services/dataService.ts:373-379 | the saved tasks are those of unlisted projects; no key but the tasks key changes |
| DataService.DropDocuments | src/services/dataService.ts:382-386 | listed projects lose their document entry, no other key changes |
| DataService.DeleteProjects | src/services/dataService.ts:360-387 | the projects and tasks read back are exactly the filtered lists; listed documents gone, other projects' kept; settings kept; no key outside the lists and the listed document keys changes |
| DataService.DeleteProjectsMembership | src/services/dataService.ts:360-379 | a project (task) survives iff it was there and is (belongs to) an unlisted one |
| DataService.ProjectsStepFrame | src/services/dataService.ts:364-370 | reading then saving the projects writes the projects key and nothing else |
| DataService.TasksStepFrame | src/services/dataService.ts:373-379 | reading then saving the tasks writes the tasks key and nothing else |
| AuthService.IndexOf | src/services/authService.ts:28 | the position of an id in the table, none iff absent |
| AuthService.Put | src/services/authService.ts:28 | assignment replaces the id's entry in place or appends it; ids stay unique, other entries kept |
| AuthService.Assign | src/services/authService.ts:43 | an incoming id ends with its last incoming entry, any other id keeps its entry, no other id appears; old ids keep their positions |
| AuthService.Lookup | src/services/authService.ts:56 | the entry of an id, none iff the table lacks it |
| AuthService.LastWith | src/services/authService.ts:43 | the last entry of a parsed table with the id, the one `JSON.parse` keeps |
| AuthService.PutLookup | src/services/authService.ts:28 | after an assignment the id looks up the new entry and every other id what it did |
| AuthService.FindEmail | src/services/authService.ts:21-24 | the first entry with the email, or none when no entry has it |
| AuthService.FindLogin | src/services/authService.ts:50-53 | the first entry matching email and password, or none |
| AuthService.LoadUsers | src/services/authService.ts:39-47 | a missing, empty or unparseable stored table changes nothing; otherwise the merge of `Assign`, id by id |
| AuthService.Register | src/services/authService.ts:19-35 | refused iff the email is known (then nothing changes); otherwise exactly one entry is appended (or replaces one with the same id), the new user returned, the whole table stored, and no other key changes |
| AuthService.Login | src/services/authService.ts:38-58 | merge kept; no matching entry means no user; a user returned has a non-empty id and is the first entry whose email and password match |
| AuthService.SetCurrentUser | src/services/authService.ts:76-82 | the read-back current user is the one set; no other key changes |
| AuthService.Logout | src/services/authService.ts:85-87 | no current user afterwards; no other key changes |
| AuthService.Init | src/services/authService.ts:90-100 | the same merge as `LoadUsers`, id by id, without touching the store |
| AuthService.InitIsLoginMerge | src/services/authService.ts:38-47 | start-up and sign-in merge the stored table identically |
| AuthService.LoadUsersTwice | src/services/authService.ts:39-47 | merging the stored table again changes no entry |
| AuthService.LoginDependsOnUsers | src/services/authService.ts:49-57 | a sign-in's outcome depends only on the merged table |
| AuthService.AssignSelfPrefix | src/services/authService.ts:43 | merging a table into itself changes nothing |
| AuthService.IndexOfUnique | src/services/authService.ts:28 | in a unique table an entry's id is found at its own position |
| AuthService.RegisterThenLogin | src/services/authService.ts:19-58 | logging in right after registering with the same credentials returns the new user |
| AuthService.RegisterTwiceRefused | src/services/authService.ts:19-35 | a second registration of the same email is refused and changes nothing |
| AuthService.CurrentUserRoundTrip | src/services/authService.ts:61-87 | set then get returns the user; after logout there is none |
| UserContext.Mount | src/contexts/UserContext.tsx:33-42 | after mount the shown user is the stored one and loading is over |
| UserContext.SignIn | src/contexts/UserContext.tsx:45-52 | success shows and stores the user; failure leaves the shown user and the store; sync preserved |
| UserContext.SignUp | src/contexts/UserContext.tsx:55-62 | success shows and stores the new user; refusal changes nothing |
| UserContext.SignOut | src/contexts/UserContext.tsx:65-68 | no user shown or stored; table unchanged |
| UserContext.SignUpSignOutSignIn | src/contexts/UserContext.tsx:45-68 | register, log out, log in again ends signed in as the registered user |
| SupabaseAuth.MockUserId | src/services/supabaseAuthService.ts:42 | mock ids are `user-` followed by decimal digits that denote the clock reading |
| SupabaseAuth.MockUserIdInjective | src/services/supabaseAuthService.ts:42 | sign-ins at different instants get different ids |
| SupabaseAuth.MockName | src/services/supabaseAuthService.ts:88 | the mock name contains no `@` |
| SupabaseAuth.MockNameIsLocalPart | src/services/supabaseAuthService.ts:88 | the mock name is the prefix of the email before its first `@` (the whole email without one) |
| SupabaseAuth.ForgetSession | src/services/supabaseAuthService.ts:169-170 | user and session removed, nothing else |
| SupabaseAuth.Register | src/services/supabaseAuthService.ts:22-58 | remote: the reply's user, store untouched; mock: a fresh user named `name or ''` stored as current; no key but the current user changes |
| SupabaseAuth.Login | src/services/supabaseAuthService.ts:61-110 | refused iff remote without user and session (store untouched); success stores user and session; mock session lasts an hour; no other key changes |
| SupabaseAuth.SetCurrentUser | src/services/supabaseAuthService.ts:147-156 | sets the user and changes no other key; null removes the user and the session and nothing else |
| SupabaseAuth.Logout | src/services/supabaseAuthService.ts:159-177 | whatever the bridge does, user and session are gone and nothing else changes |
| SupabaseAuth.ResetPassword | src/services/supabaseAuthService.ts:180-201 | mock always true; remote true iff the reply carries the agreed message |
| SupabaseAuth.Init | src/services/supabaseAuthService.ts:211-233 | mock or failed call: no change; a reply user is stored and nothing else changes; a reply without one signs out |
| SupabaseAuth.MockLoginLogout | src/services/supabaseAuthService.ts:61-177 | mock sign-in then sign-out equals forgetting the session on the original store |
| SupabaseUserContext.Mount | src/contexts/SupabaseUserContext.tsx:44-61 | after mount the shown user is the stored one and loading is over |
| SupabaseUserContext.SignIn | src/contexts/SupabaseUserContext.tsx:64-73 | the shown user becomes the service's answer, null included |
| SupabaseUserContext.SignOut | src/contexts/SupabaseUserContext.tsx:76-83 | no user shown, stored, nor session |
| SupabaseUserContext.SignUp | src/contexts/SupabaseUserContext.tsx:86-99 | a returned user is shown and stored; none changes nothing |
| SupabaseUserContext.RefusedSignInHidesStoredUser | src/contexts/SupabaseUserContext.tsx:64-73 | a refused remote sign-in shows no user while the store still has one |
| TaskList.PriorityColor | src/components/TaskList.tsx:39-50 | `default` exactly for an unknown priority |
| TaskList.StatusColor | src/components/TaskList.tsx:53-64 | `default` exactly for a status other than the three coloured ones |
| TaskList.ColorsDistinguish | src/components/TaskList.tsx:39-64 | three priorities get three colours; three statuses too; queued is `default` |
| TaskList.BlockedImpliesBanner | src/components/TaskList.tsx:94-98 | a visitor refused a new task also sees the free-tier banner; signed-in users are never refused |
| TaskList.TasksOf | src/components/TaskList.tsx:195 | the shown tasks are exactly the project's stored tasks, in stored order and multiplicity |
| TaskList.TasksOfMembership | src/components/TaskList.tsx:195 | a task is shown iff stored with the project, in stored order, never more often |
| TaskList.FilterAllOfProject | src/components/TaskList.tsx:182 | a list of one project's tasks filters to itself |
| TaskList.Recount | src/components/TaskList.tsx:185-189 | same length; the project's totals match its tasks with its other fields unchanged; other projects unchanged |
| TaskList.RecountUnique | src/components/TaskList.tsx:185-189 | the recount is the only list that keeps the other projects and matches the totals |
| TaskList.CommittedThroughTasksRead | src/components/TaskList.tsx:137 | the seeding task read before a handler's writes stays within its frame |
| TaskList.Commit | src/components/TaskList.tsx:174-195 | tasks saved and read back; the projects list read before is exactly recounted; a missing project leaves the projects entry as read; no other key changes |
| TaskList.RecountStored | src/components/TaskList.tsx:177-192 | on a store holding the tasks: the exact recount, or the projects entry as read when the project is missing; no other key changes |
| TaskList.ApplyForm | src/components/TaskList.tsx:142-155 | every dialog field replaces the task's (title, description, priority, status, both dates, dependencies); id, project and completion stay |
| TaskList.FormOf | src/components/TaskList.tsx:113-126 | the edit dialog shows the task's fields, its dates cut to midnight UTC |
| TaskList.DayStart | src/components/TaskList.tsx:121-122 | midnight UTC of the day of an instant |
| TaskList.EditUnchanged | src/components/TaskList.tsx:113-155 | saving an unchanged edit dialog only moves the dates to the start of their day; the task is kept iff both already are |
| TaskList.MapId | src/components/TaskList.tsx:142-155 | exactly the tasks with the id are changed |
| TaskList.MapIdMissing | src/components/TaskList.tsx:142-155 | without a task with the id the map changes nothing |
| TaskList.NewTask | src/components/TaskList.tsx:158-169 | a new task carries every dialog field, the clock id and the project, and is not completed |
| TaskList.SaveTask | src/components/TaskList.tsx:134-197 | nothing iff the title is blank; an invalid date throws after the task read (for an edit only when some task has the id); otherwise appended or edited in place, recounted, no other key changed |
| TaskList.DeleteTask | src/components/TaskList.tsx:200-226 | the stored tasks are the old ones without the id; exact recount; no other key changes |
| TaskList.DeleteTaskRemovesOnlyIt | src/components/TaskList.tsx:202 | a task survives iff it was there and has another id |
| TaskList.Toggle | src/components/TaskList.tsx:233 | completion flips; completed iff status `completed`; nothing else changes |
| TaskList.ToggleComplete | src/components/TaskList.tsx:229-259 | exactly the tasks with the id are toggled; exact recount; no other key changes |
| TaskList.ToggleTwice | src/components/TaskList.tsx:233 | two toggles restore completion; the task is restored iff its status already matched it |
| TaskList.ToggleCompleteTwice | src/components/TaskList.tsx:229-259 | two toggles through the store apply the double toggle to the tasks with the id |
| DemoData.WeightedPick | src/utils/demoData.ts:111-126 | the loop returns the first item whose running weight total exceeds the roll, or the fallback |
| DemoData.Bands | src/utils/demoData.ts:110-144 | 20/50/30 priority bands and 30/40/10/20 status bands; fallbacks unreachable |
| DemoData.DemoTaskId | src/utils/demoData.ts:202 | the id ends in the loop digit |
| DemoData.DemoTaskIdsDistinct | src/utils/demoData.ts:201-203 | ids from different loop positions differ whatever the clock read |
| DemoData.AllFromDrawsAppend | src/utils/demoData.ts:201-215 | appending the next draw's task keeps every task matching its draw |
| DemoData.PickIndex | src/utils/demoData.ts:209 | the picked position is an earlier task |
| DemoData.AppendKeepsOrder | src/utils/demoData.ts:205-211 | a new id depending on listed tasks keeps ids distinct and dependencies backwards |
| DemoData.GenerateTasks | src/utils/demoData.ts:163-215 | five tasks, each with the position's id, the drawn title, description and dates, status and priority from its rolls, and a dependency on exactly the earlier task the pick roll chooses when the link roll exceeds one half; distinct ids, every dependency on an earlier task |
| DemoData.ChainDescends | src/utils/demoData.ts:205-211 | along a dependency chain positions strictly decrease |
| DemoData.NoCycle | src/utils/demoData.ts:205-211 | no dependency chain returns to its start |
| DemoData.DemoProject | src/utils/demoData.ts:194-220 | the project id is `demo-` and the clock's digits; name, description and creation date are the drawn ones; its totals match its tasks |
| DemoData.SaveDemo | src/utils/demoData.ts:222-230 | empty project list: the demo project and tasks are stored; otherwise both lists read as before |
| DemoData.SaveDemoKeepsUser | src/utils/demoData.ts:222-230 | the save never changes the current user |
| DemoData.SaveDemoOnMissingKey | src/utils/demoData.ts:222-230 | with no project entry the seeded built-ins are what stays |
| DemoData.GenerateDemoProjectWithTasks | src/utils/demoData.ts:192-231 | an empty repository gets one project `demo-<now>` with the drawn fields and the five generated tasks, each from its draw, with matching totals; a non-empty one keeps both its projects and its tasks |
| DemoData.FreshStoreGetsNoDemo | src/utils/demoData.ts:226-230 | on an empty store the projects read back are the four built-ins |
| BulkActions.ToggleProject | src/components/ProjectBulkActions.tsx:42-48 | the id is selected afterwards iff it was not; other ids unchanged; no duplicates kept |
| BulkActions.FilterKeepsNoDuplicates | src/components/ProjectBulkActions.tsx:45 | filtering keeps the selection free of duplicates |
| BulkActions.ToggleUnselectedTwice | src/components/ProjectBulkActions.tsx:42-48 | selecting then deselecting restores the exact selection |
| BulkActions.ToggleSelectedTwice | src/components/ProjectBulkActions.tsx:42-48 | deselecting then selecting restores the set, with the id moved last |
| BulkActions.ToggleAll | src/components/ProjectBulkActions.tsx:51-57 | all selected: clear; otherwise select every project id in order |
| BulkActions.HeaderStates | src/components/ProjectBulkActions.tsx:97-110 | never checked and indeterminate at once; select-all from partial checks all; from all disables delete |
| BulkActions.ChipColor | src/components/ProjectBulkActions.tsx:126 | `success` iff the project has tasks and all are completed |
| BulkActions.DeleteSelected | src/components/ProjectBulkActions.tsx:60-83 | cascade delete of the selection; the shown list keeps the unselected projects in order, each as often as before, and loses every selected one; selection cleared; message counts them |
| BulkActions.DeleteKeepsListInStep | src/components/ProjectBulkActions.tsx:62-65 | the shown list and the repository agree after the delete |
| Completion.Percentage | src/components/ProjectsSection.tsx:69-71 | no tasks: 0; otherwise the nearest integer to 100c/t, halves up |
| Completion.PercentageBounds | src/components/ProjectsPageContent.tsx:184-186 | between 0 and 100; 100 when all done; 0 when none |
| Completion.PercentageMonotone | src/components/Dashboard.tsx:205 | more completed tasks never lower the percentage |
| Sorting.InsertSorted | src/components/ProjectsSection.tsx:139-152 | inserting into a sorted list keeps it sorted |
| Sorting.Sort | src/components/ProjectsSection.tsx:139-152 | a permutation of the input, sorted by the comparator |
| Sorting.SortSorted | src/components/ProjectsPageContent.tsx:168-181 | an already sorted list comes back unchanged |
| Sorting.SortIdempotent | src/components/ProjectsPageContent.tsx:168-181 | sorting twice equals sorting once |
| Unscoped.ProjectsEntry | src/components/Dashboard.tsx:183-190 | missing iff no bare entry or an empty one; parsed iff it holds projects |
| Unscoped.TasksEntry | src/components/Dashboard.tsx:167-175 | missing iff no bare entry or an empty one; parsed iff it holds tasks |
| Unscoped.LoadProjectsOrSeed | src/components/Dashboard.tsx:182-194 | seeds the bare key only when missing or empty; unparsed or missing keeps the shown list |
| Unscoped.LoadTasksOrSeed | src/components/Dashboard.tsx:167-180 | seeds the bare key only when missing or empty; unparsed or missing shows the built-in tasks |
| Unscoped.AnonymousKeysAreBare | src/services/dataService.ts:143-161 | with nobody signed in the scoped keys are the bare keys |
| Unscoped.AnonymousLoadsAgree | src/components/Dashboard.tsx:166-194 | anonymous component loads equal the repository reads |
| Unscoped.SignedInIgnoresBareKeys | src/components/ProjectsSection.tsx:184-185 | signed in, a bare-key write changes no repository read and not the user |
| Dashboard.Stats | src/components/Dashboard.tsx:199-205 | the counts are the filtered counts, bounded by the total; the percentage is the rounded completion of those counts: 0..100, 0 for no tasks, 100 when all done |
| Dashboard.DueFirstIsPreorder | src/components/Dashboard.tsx:218 | ordering by due date is a total preorder |
| Dashboard.Upcoming | src/components/Dashboard.tsx:212-219 | a permutation of the open tasks due within a week, in due-date order |
| Dashboard.UpcomingMembership | src/components/Dashboard.tsx:207-219 | a task is upcoming iff open and due between today and a week later |
| Dashboard.ProjectLabel | src/components/Dashboard.tsx:333 | the first project with the id decides: its name, or `Unknown` when that name is empty; `Unknown` when no project has the id |
| Dashboard.ProjectLabelAppend | src/components/Dashboard.tsx:333 | appending a project changes no label of an id already listed |
| Dashboard.ProjectLabelAppendNew | src/components/Dashboard.tsx:333 | an unlisted id gets the appended project's label |
| Dashboard.Mount | src/components/Dashboard.tsx:158-196 | both bare keys exist; signed in: shows the parsed entries or fallbacks, repository untouched; anonymous: shows the repository tasks, five of them after a demo |
| Dashboard.AnonymousTasksShown | src/components/Dashboard.tsx:166-194 | anonymous: the shown tasks are the repository's, also after the projects load |
| ProjectViews.Search | src/components/ProjectsSection.tsx:133-136 | a project stays iff its lower-cased name or description includes the lower-cased term; matches keep their order and multiplicity |
| ProjectViews.EmptySearchKeepsAll | src/components/ProjectsPageContent.tsx:162-165 | the empty term keeps every project in order |
| ProjectViews.SearchIgnoresCase | src/components/ProjectsSection.tsx:133-136 | upper- or lower-casing the term changes nothing |
| ProjectViews.DescendingSwaps | src/components/ProjectsSection.tsx:151 | descending negates the comparison, i.e. swaps its arguments |
| ProjectViews.AscendingIsPreorder | src/components/ProjectsSection.tsx:139-150 | every ascending comparison is a total preorder |
| ProjectViews.BeforeIsPreorder | src/components/ProjectsSection.tsx:139-152 | both directions are total preorders |
| ProjectViews.SortProjects | src/components/ProjectsPageContent.tsx:168-181 | a permutation in which every pair compares at most zero |
| ProjectViews.NumericOrder | src/components/ProjectsSection.tsx:144-148 | numeric and date keys come out in numeric order for each direction |
| ProjectViews.Shown | src/components/ProjectsSection.tsx:133-152 | the shown list is a permutation of the matches, ordered by the comparator of the sort state |
| ProjectViews.RequestSort | src/components/ProjectsSection.tsx:126-130 | the key becomes the requested one; descending iff it was that key ascending |
| ProjectViews.RequestSortAlternates | src/components/ProjectsPageContent.tsx:155-159 | repeated requests of one key alternate the direction |
| ProjectViews.FlipOrder | src/components/ProjectsSection.tsx:297 | the direction flips, the key stays |
| ProjectViews.FlipOrderTwice | src/components/ProjectsSection.tsx:297 | two flips restore the state |
| ProjectViews.CanOpenCreate | src/components/ProjectsSection.tsx:154-162 | the page always opens the dialog; the section refuses visitors at two projects |
| ProjectViews.NewProject | src/components/ProjectsSection.tsx:172-179 | a new project has the dialog's name and description and no tasks |
| ProjectViews.Create | src/components/ProjectsSection.tsx:169-187 | nothing iff the name is blank; otherwise the new project is appended and the bare key holds the list |
| ProjectViews.CreateVisibleAnonymous | src/components/ProjectsPageContent.tsx:128-147 | anonymous: the repository reads back the created list |
| ProjectViews.CreateInvisibleSignedIn | src/components/ProjectsSection.tsx:181-185 | signed in: the repository's projects are unchanged by a create |
| ProjectViews.PageMount | src/components/ProjectsPageContent.tsx:99-114 | parsed entry shown as is; otherwise built-ins; anonymous equals the repository read |
| ProjectViews.SectionMount | src/components/ProjectsSection.tsx:85-117 | parsed: shown; garbled: empty; missing: signed in writes `[]`, a visitor sees the seeded built-ins |
| ResetConfirm.Check | src/app/auth/reset-password/confirm/page.tsx:46-59 | passes iff token present, passwords equal and at least 6 long; the first failing check's message otherwise |
| ResetConfirm.Submit | src/app/auth/reset-password/confirm/page.tsx:43-97 | sent iff the checks pass; a refusal shows the first failing check's message; a reply's success or failure, or a thrown call, sets the outcome and loading ends |
| ResetConfirm.RefusalIsStable | src/app/auth/reset-password/confirm/page.tsx:46-59 | a refused submit repeated gives the same outcome |
| ResetConfirm.HelperText | src/app/auth/reset-password/confirm/page.tsx:167-172 | a hint iff the confirmation is non-empty and differs |
| ResetConfirm.HelperTextPredictsRefusal | src/app/auth/reset-password/confirm/page.tsx:51-54 | whenever the hint shows, submitting is refused, with the same message once a token exists |
| UserProfile.FirstLetters | src/components/Auth/UserProfile.tsx:31-34 | at most one letter per word |
| UserProfile.FirstLettersOfSplit | src/components/Auth/UserProfile.tsx:31-35 | the first letters of the space-split words are the characters that start a word |
| UserProfile.Initials | src/components/Auth/UserProfile.tsx:29-38 | with a name, its upper-cased word starts; otherwise the first two email characters, upper-cased |
| UserProfile.Render | src/components/Auth/UserProfile.tsx:24-75 | a card iff a user; initials and email shown; the heading is `User` iff there is no name or the name is `User`; a named user's name is both heading and name row, otherwise the row says `Not provided` |
| Navigation.UserMenu | src/components/Navigation.tsx:55-62 | signed in: two items, the second logging out; otherwise a single link; every link goes to `/auth` |
| Navigation.AvatarText | src/components/Navigation.tsx:80-86 | text iff a user; at most two characters |
| Navigation.AvatarTextIsProfilePrefix | src/components/Navigation.tsx:80-83 | the avatar shows the first two profile initials |
| Navigation.Label | src/components/Navigation.tsx:89 | `Guest User`, else the name, else the email |
| Navigation.AtMostOneSelected | src/components/Navigation.tsx:103-108 | at most one item is selected, and one is for each item's path |
| Theme.ActiveMode | src/components/ThemeRegistry.tsx:99-116 | `system` follows the preference; any other mode is used as is |
| Theme.KnownModesResolve | src/components/ThemeRegistry.tsx:100-116 | the three known modes resolve to light or dark |
| Theme.PaletteBackgrounds | src/components/ThemeRegistry.tsx:33-36 | light backgrounds for light, dark ones for anything else |
| Theme.StoredMode | src/components/ThemeRegistry.tsx:83-90 | a stored mode exists iff the entry is non-empty text |
| Theme.SetMode | src/components/ThemeRegistry.tsx:92-97 | the mode and active mode update and only `themeMode` is written |
| Theme.Mount | src/components/ThemeRegistry.tsx:77-97 | the stored mode, or light, is restored and persisted |
| Theme.ModeSurvivesReload | src/components/ThemeRegistry.tsx:83-97 | a chosen mode is what the next mount restores |
| Theme.PreferenceChanged | src/components/ThemeRegistry.tsx:106-109 | in system mode the active mode follows the preference; otherwise nothing changes |
| Theme.FollowsPreference | src/components/ThemeRegistry.tsx:99-116 | after choosing a mode a preference change only matters in system mode |
| SettingsPage.NotificationChange | src/app/settings/page.tsx:114-128 | flips exactly one notification flag |
| SettingsPage.NotificationChangeTwice | src/app/settings/page.tsx:114-121 | flipping twice restores the settings |
| SettingsPage.PrivacyChange | src/app/settings/page.tsx:162-176 | flips exactly one privacy flag |
| SettingsPage.PrivacyChangeTwice | src/app/settings/page.tsx:162-169 | flipping twice restores the settings |
| SettingsPage.AppearanceChange | src/app/settings/page.tsx:141-160 | sets exactly one appearance field; forwarded to the theme iff it is the theme |
| SettingsPage.SyncTheme | src/app/settings/page.tsx:130-139 | the theme field follows the registry mode; nothing else changes |
| SettingsPage.ThemeChoiceAgrees | src/app/settings/page.tsx:141-153 | after choosing a theme, page and registry agree and the sync is a no-op |
| SettingsPage.ProfileChange | src/app/settings/page.tsx:178-183 | sets exactly one profile field |
| SettingsPage.ProfileChangeSameValue | src/app/settings/page.tsx:178-183 | writing a field's own value changes nothing |
| Strings.TrimStart | src/components/TaskList.tsx:135 | drops exactly the leading white space |
| Strings.TrimEnd | src/components/TaskList.tsx:135 | drops exactly the trailing white space |
| Strings.BlankIffAllSpace | src/components/ProjectsSection.tsx:170 | a trimmed name is empty iff every character is white space |
| Strings.Lower | src/components/ProjectsSection.tsx:134 | lower-cases character by character, keeping the length |
| Strings.Upper | src/components/Auth/UserProfile.tsx:35 | upper-cases character by character, keeping the length |
| Strings.LowerUpper | src/components/ProjectsSection.tsx:134-135 | lower-casing forgets a previous upper-casing |
| Strings.IncludesIffOccurs | src/components/ProjectsSection.tsx:134 | `includes` holds iff the term occurs at some position |
| Strings.Take | src/components/Auth/UserProfile.tsx:37 | a prefix of length min(n, length) |
| Strings.Split | src/components/Navigation.tsx:82 | at least one piece, none containing the separator |
| Strings.SplitJoin | src/components/Auth/UserProfile.tsx:31-34 | joining the pieces with the separator gives back the text |
| Strings.NatToString | src/components/TaskList.tsx:159 | decimal digits without a leading zero whose value is the number |
| Strings.NatToStringInjective | src/components/TaskList.tsx:159 | different numbers have different decimal texts |
| Strings.LexCompare | src/components/ProjectsSection.tsx:143 | -1, 0 or 1, and 0 exactly for equal texts |
| Strings.LexAntisymmetric | src/components/ProjectsSection.tsx:143 | swapping the arguments negates the comparison |
| Strings.LexTransitive | src/components/ProjectsSection.tsx:143 | the comparison is transitive |

## Left out

- JSON text: stored entries are modelled by what parsing yields. An entry of another kind than a read expects counts as unparseable, where the source would pass the foreign object on unchecked.
- The shape of imported data: the parts of an import are taken to be lists of projects, tasks and documents and a settings object. The source checks only that each part is truthy.
- `getUserKey` when the current-user record parses but has no `id`: the source then builds a key ending in `_undefined`. The model's user records always carry an id.
- Server-side rendering guards (`typeof window === 'undefined'`): the model always runs in the browser.
- AuthService: the key order of the user table is insertion order. JavaScript lists integer-like keys first, which can change which entry `find` meets first.
- Completion.Percentage: computed in exact integers, rounding halves up. The source rounds a floating-point quotient, which can differ at exact halves.
- DemoData.Bands: the running weight totals are exact reals. In binary floating point the status totals can fall just short of the decimal band edges.
- Dates: held as epoch milliseconds. "Within a week" is seven days of 86,400,000 ms, with no daylight-saving shift. A date field of the task dialog is modelled by what `new Date` makes of its text: an instant, or none for an empty or invalid date. The text format itself is not modelled, and neither is the month arithmetic of the demo generator, whose results are inputs.
- Generated names and descriptions of the demo data and `generateId` are inputs.
- Clock reads: every read is an input. Where one operation reads the clock more than once, the reads are collapsed into one input `now`, as if they all returned the same instant. The mock sign-in reads `Date.now()` four times, the mock registration once, and creating a project reads both `Date.now()` and `new Date()`.
- DataService.ImportAllData: every `setItem` succeeds. In the browser a write can throw when the storage quota is exceeded; the import then returns false and keeps the writes made before the failing one. The model's `true` result, and the entries it promises, assume no quota error.
- Remote calls: the bridge's reply and the reset request's outcome are inputs. The request bodies and transport are not modelled.
- SupabaseUserContext: `resetPasswordFn` only forwards to `SupabaseAuth.ResetPassword`, so it has no member of its own.
- ResetConfirm.Check: the length check counts characters. The source counts UTF-16 code units.
- UserProfile.FirstLetters, UserProfile.Initials, Navigation.AvatarText, Strings.Take: the source indexes UTF-16 code units (`n[0]` and `substring(0, 2)` in UserProfile.tsx:33,37; Navigation.tsx:82-83), while the model indexes characters (Unicode scalar values). For a name that starts with a character outside the Basic Multilingual Plane, such as "😀 Ann", the source takes half a surrogate pair and the model takes the whole character.
- Strings.Lower, Strings.Upper: ASCII case mapping only; no Unicode case rules.
- Strings.LexCompare: code-point order stands in for `localeCompare`'s locale collation.
- ProjectViews.SortProjects: the sort used is stable, as `Array.prototype.sort` is, but its contract states only permutation and order, not stability.
- Theme.StoredMode: a `themeMode` entry that is not plain text counts as absent.
- React effect scheduling, loading spinners, dialogs, snackbars, alerts and router navigation are not modelled.
- The settings page's tab state and profile save button only toggle view state and are not modelled.
- The data-management panel, the login and reset-request forms, the project detail view, the API route and the page shells are outside this model.
