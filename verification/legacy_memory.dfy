/** The older copy of the memory package at the repository root. Its entry,
    project and active-project functions are the same statements as the
    current package's, so `ProjectStore` models them; what differs is
    `AddMemory`, which takes no importance. */
module LegacyMemory {
  import opened Wrappers
  import ProjectStore

  /** `AddMemory(project, role, content)`: open the database, then add the
      line with the default importance. */
  function AddMemory(
    s: ProjectStore.Store, project: string, role: string, content: string,
    init: Outcome<string>, now: int, write: Outcome<string>): (u: ProjectStore.Update)
    ensures init.Fail? ==> u == ProjectStore.Update(s, init)
    ensures init.Pass? ==> u.outcome == write
    ensures u.outcome.Pass? ==>
      && |u.store.entries| == |s.entries| + 1
      && u.store.entries[..|s.entries|] == s.entries
      && u.store.entries[|s.entries|].project == project
      && u.store.entries[|s.entries|].content == content
      && u.store.entries[|s.entries|].importance == 0
  {
    ProjectStore.AddMemory(s, project, role, content, [], init, now, write)
  }

  /** The older `AddMemory` stores what the current one stores when called
      with no importance, or with importance 0. */
  lemma AddMemoryIsDefaultImportance(
    s: ProjectStore.Store, project: string, role: string, content: string,
    init: Outcome<string>, now: int, write: Outcome<string>)
    ensures AddMemory(s, project, role, content, init, now, write)
      == ProjectStore.AddMemory(s, project, role, content, [0], init, now, write)
  {
  }
}
