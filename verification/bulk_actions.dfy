/** Bulk deletion of projects (src/components/ProjectBulkActions.tsx): a selection of project
    ids, the header checkbox that selects all or none, and the cascade delete of the
    selection. */
module BulkActions {
  import opened Seqs
  import opened Strings
  import opened Entities
  import opened Store
  import opened DataService

  /** The component state: the loaded projects and the selected ids, in selection order. */
  datatype Selection = Selection(projects: seq<Project>, selected: seq<string>)

  /** No id is selected twice. */
  predicate NoDuplicates(ids: seq<string>) {
    forall i, j :: 0 <= i < j < |ids| ==> ids[i] != ids[j]
  }

  /** The filter `id => id !== projectId`. */
  function Other(projectId: string): string -> bool {
    (id: string) => id != projectId
  }

  /** `handleToggleProject`: removes a selected id, appends an unselected one. */
  function ToggleProject(selected: seq<string>, projectId: string): (r: seq<string>)
    ensures projectId in r <==> projectId !in selected
    ensures forall id :: id != projectId ==> (id in r <==> id in selected)
    ensures NoDuplicates(selected) ==> NoDuplicates(r)
  {
    if projectId in selected then
      var r := Filter(selected, Other(projectId));
      forall id | id != projectId ensures id in r <==> id in selected {
        FilterMembership(selected, Other(projectId), id);
      }
      if NoDuplicates(selected) then FilterKeepsNoDuplicates(selected, Other(projectId)); r else r
    else selected + [projectId]
  }

  /** Filtering keeps a list free of duplicates. */
  lemma {:induction false} FilterKeepsNoDuplicates(ids: seq<string>, keep: string -> bool)
    requires NoDuplicates(ids)
    ensures NoDuplicates(Filter(ids, keep))
    decreases |ids|
  {
    if |ids| > 0 {
      FilterKeepsNoDuplicates(ids[1..], keep);
      var rest := Filter(ids[1..], keep);
      if keep(ids[0]) {
        forall j | 0 <= j < |rest| ensures rest[j] != ids[0] {
          assert rest[j] in ids[1..];
        }
      }
    }
  }

  /** Toggling an unselected project twice gives back exactly the same selection. */
  lemma ToggleUnselectedTwice(selected: seq<string>, projectId: string)
    requires projectId !in selected
    ensures ToggleProject(ToggleProject(selected, projectId), projectId) == selected
  {
    var once := selected + [projectId];
    FilterAll(selected, Other(projectId));
    FilterAppend(selected, [projectId], Other(projectId));
    assert Filter([projectId], Other(projectId)) == [];
  }

  /** Toggling a selected project twice gives back the same set of ids, but the project moves
      to the end of the selection order. */
  lemma ToggleSelectedTwice(selected: seq<string>, projectId: string)
    requires projectId in selected
    ensures var r := ToggleProject(ToggleProject(selected, projectId), projectId);
      forall id :: id in r <==> id in selected
    ensures var r := ToggleProject(ToggleProject(selected, projectId), projectId);
      |r| > 0 && r[|r| - 1] == projectId
  {
  }

  /** `handleToggleAll`: clears the selection when as many ids are selected as there are
      projects, and otherwise selects every project in list order. */
  function ToggleAll(s: Selection): (r: Selection)
    ensures r.projects == s.projects
    ensures |s.selected| == |s.projects| ==> r.selected == []
    ensures |s.selected| != |s.projects| ==>
      (|r.selected| == |s.projects| && forall i :: 0 <= i < |s.projects| ==> r.selected[i] == s.projects[i].id)
  {
    if |s.selected| == |s.projects| then s.(selected := [])
    else s.(selected := seq(|s.projects|, i requires 0 <= i < |s.projects| => s.projects[i].id))
  }

  /** The header checkbox is checked. */
  predicate AllChecked(s: Selection) {
    |s.selected| == |s.projects| && |s.projects| > 0
  }

  /** The header checkbox is indeterminate. */
  predicate PartlyChecked(s: Selection) {
    |s.selected| > 0 && |s.selected| < |s.projects|
  }

  /** "Delete Selected" is disabled. */
  predicate DeleteDisabled(s: Selection) {
    |s.selected| == 0
  }

  /** The header checkbox is never both checked and indeterminate; pressing it on a partial
      selection checks it, and pressing it on a full one empties the selection. */
  lemma HeaderStates(s: Selection)
    ensures !(AllChecked(s) && PartlyChecked(s))
    ensures PartlyChecked(s) ==> AllChecked(ToggleAll(s))
    ensures AllChecked(s) ==> DeleteDisabled(ToggleAll(s))
  {
  }

  /** The chip of a project is green when all of at least one task are done. */
  function ChipColor(p: Project): (c: string)
    ensures c == "success" <==> p.tasksCount > 0 && p.completedTasks == p.tasksCount
  {
    if p.completedTasks == p.tasksCount && p.tasksCount > 0 then "success" else "default"
  }

  /** The success message of a deletion. */
  function DeletedMessage(n: nat): string {
    "Successfully deleted " + NatToString(n) + " project(s)"
  }

  /** `handleDeleteProjects`: the cascade delete in the store, the selected projects dropped
      from the list, an empty selection, and the message naming how many were selected. */
  function DeleteSelected(st: Store, s: Selection): (r: (Store, Selection, string))
    ensures r.0 == DeleteProjects(st, s.selected)
    ensures r.1.selected == [] && DeleteDisabled(r.1)
    ensures forall p :: p in r.1.projects <==> p in s.projects && p.id !in s.selected
    ensures Selects(r.1.projects, s.projects, NotListed(s.selected))
    ensures r.2 == DeletedMessage(|s.selected|)
  {
    var kept := Filter(s.projects, NotListed(s.selected));
    FilterSelects(s.projects, NotListed(s.selected));
    forall p ensures p in kept <==> p in s.projects && p.id !in s.selected {
      FilterMembership(s.projects, NotListed(s.selected), p);
    }
    (DeleteProjects(st, s.selected), Selection(kept, []), DeletedMessage(|s.selected|))
  }

  /** When the list shows the stored projects, after a deletion it still shows exactly the
      stored projects, as a set. */
  lemma DeleteKeepsListInStep(st: Store, s: Selection, p: Project)
    requires s.projects == GetProjects(st).value
    ensures var r := DeleteSelected(st, s);
      p in r.1.projects <==> p in GetProjects(r.0).value
  {
  }
}
