/** The project and memory store of the `memory` package: conversation lines
    (`memory` table), project names (`projects` table) and the active project
    (the `active_project` row of `settings`). The three tables are held as
    plain values; the clock, and the outcome of each SQL statement that can
    fail, are inputs. */
module ProjectStore {
  import opened Wrappers
  import opened Text

  /** One stored conversation line. `timestamp` is the insertion time as an
      ordered instant; `id` is the AUTOINCREMENT key. */
  datatype MemoryEntry = MemoryEntry(
    id: nat,
    project: string,
    role: string,
    content: string,
    timestamp: int,
    importance: int)

  /** The database: project names, the `active_project` setting (`None` when
      the row does not exist), memory rows in insertion order, and the next
      id AUTOINCREMENT hands out. */
  datatype Store = Store(
    projects: set<string>,
    active: Option<string>,
    entries: seq<MemoryEntry>,
    nextId: nat)

  /** The database after a call, and the error the call returned. */
  datatype Update = Update(store: Store, outcome: Outcome<string>)

  /** Every row's id was handed out already and no two rows share one. */
  predicate IdsFresh(s: Store) {
    && (forall i :: 0 <= i < |s.entries| ==> s.entries[i].id < s.nextId)
    && (forall i, j :: 0 <= i < j < |s.entries| ==> s.entries[i].id != s.entries[j].id)
  }

  // ---------------------------------------------------------------------------
  // Memory entries

  /** The importance `AddEntry` stores: the first optional argument, else 0. */
  function ImportanceOf(importance: seq<int>): int {
    if |importance| > 0 then importance[0] else 0
  }

  /** `AddEntry(db, project, role, content, importance...)`. `write` is the
      outcome of preparing and executing the insert. */
  function AddEntry(
    s: Store, project: string, role: string, content: string, importance: seq<int>,
    now: int, write: Outcome<string>): (u: Update)
    ensures u.outcome == write
    ensures write.Fail? ==> u.store == s
    ensures write.Pass? ==>
      && u.store.projects == s.projects
      && u.store.active == s.active
      && |u.store.entries| == |s.entries| + 1
      && u.store.entries[..|s.entries|] == s.entries
      && u.store.nextId > s.nextId
    ensures write.Pass? ==>
      var e := u.store.entries[|s.entries|];
      && e.id == s.nextId
      && e.project == project && e.role == role && e.content == content
      && e.timestamp == now
      && (|importance| == 0 ==> e.importance == 0)
      && (|importance| > 0 ==> e.importance == importance[0])
  {
    match write
    case Fail(_) => Update(s, write)
    case Pass =>
      var e := MemoryEntry(s.nextId, project, role, content, now, ImportanceOf(importance));
      Update(s.(entries := s.entries + [e], nextId := s.nextId + 1), Pass)
  }

  /** Adding an entry keeps ids fresh and distinct. */
  lemma AddEntryKeepsIdsFresh(
    s: Store, project: string, role: string, content: string, importance: seq<int>,
    now: int, write: Outcome<string>)
    requires IdsFresh(s)
    ensures IdsFresh(AddEntry(s, project, role, content, importance, now, write).store)
  {
  }

  /** The two orders the recall queries use: `ORDER BY timestamp DESC`, and
      `ORDER BY importance DESC, timestamp DESC`. */
  datatype Ranking = ByRecency | ByImportance

  /** `a` may be listed before `b`. Ties are allowed either way: the database
      does not order rows with equal keys. */
  predicate RanksAtLeast(o: Ranking, a: MemoryEntry, b: MemoryEntry) {
    match o
    case ByRecency => a.timestamp >= b.timestamp
    case ByImportance =>
      a.importance > b.importance || (a.importance == b.importance && a.timestamp >= b.timestamp)
  }

  predicate Ranked(o: Ranking, s: seq<MemoryEntry>) {
    forall i, j :: 0 <= i < j < |s| ==> RanksAtLeast(o, s[i], s[j])
  }

  /** Places `e` into a ranked sequence. */
  function Insert(o: Ranking, e: MemoryEntry, s: seq<MemoryEntry>): (r: seq<MemoryEntry>)
    requires Ranked(o, s)
    ensures Ranked(o, r)
    ensures multiset(r) == multiset(s) + multiset{e}
    decreases |s|
  {
    if s == [] then [e]
    else if RanksAtLeast(o, e, s[0]) then
      assert forall j :: 0 < j < |s| ==> RanksAtLeast(o, s[0], s[j]);
      [e] + s
    else
      var rest := Insert(o, e, s[1..]);
      assert s == [s[0]] + s[1..];
      assert RanksAtLeast(o, s[0], e);
      assert forall j :: 0 <= j < |rest| ==> RanksAtLeast(o, s[0], rest[j]) by {
        forall j | 0 <= j < |rest|
          ensures RanksAtLeast(o, s[0], rest[j])
        {
          assert rest[j] in multiset(rest);
          if rest[j] != e {
            assert rest[j] in multiset(s[1..]);
            var k :| 0 <= k < |s[1..]| && s[1..][k] == rest[j];
            assert s[k + 1] == rest[j];
          }
        }
      }
      [s[0]] + rest
  }

  /** Insertion sort under a ranking; the order among ties is arbitrary. */
  function Sort(o: Ranking, s: seq<MemoryEntry>): (r: seq<MemoryEntry>)
    ensures Ranked(o, r)
    ensures multiset(r) == multiset(s)
    decreases |s|
  {
    if s == [] then []
    else
      assert s == [s[0]] + s[1..];
      Insert(o, s[0], Sort(o, s[1..]))
  }

  /** The rows of one project (`WHERE project = ?`), in storage order. */
  function OfProject(entries: seq<MemoryEntry>, project: string): (r: seq<MemoryEntry>)
    ensures forall i :: 0 <= i < |r| ==> r[i].project == project
    ensures forall e :: multiset(r)[e] == if e.project == project then multiset(entries)[e] else 0
    decreases |entries|
  {
    if entries == [] then []
    else
      assert entries == [entries[0]] + entries[1..];
      var rest := OfProject(entries[1..], project);
      if entries[0].project == project then [entries[0]] + rest else rest
  }

  /** What any answer to a recall query satisfies, whatever order the
      database picks among ties: only the project's rows, each at most as often
      as stored, as many as the limit allows (`LIMIT ?`; a negative limit means
      no limit), ranked, and no row left out ranks above one returned. */
  predicate AnswersRecall(s: Store, project: string, n: int, o: Ranking, r: seq<MemoryEntry>) {
    && (forall i :: 0 <= i < |r| ==> r[i].project == project)
    && multiset(r) <= multiset(OfProject(s.entries, project))
    && |r| == (if 0 <= n < |OfProject(s.entries, project)| then n else |OfProject(s.entries, project)|)
    && Ranked(o, r)
    && (forall e :: e in multiset(OfProject(s.entries, project)) - multiset(r) ==>
          forall i :: 0 <= i < |r| ==> RanksAtLeast(o, r[i], e))
  }

  /** A recall query: the project's rows in ranking order, cut to the first
      `n`. This is one of the answers the database may give. */
  function Recall(s: Store, project: string, n: int, o: Ranking): (r: seq<MemoryEntry>)
    ensures forall i :: 0 <= i < |r| ==> r[i].project == project
    ensures multiset(r) <= multiset(OfProject(s.entries, project))
    ensures |r| == if 0 <= n < |OfProject(s.entries, project)| then n else |OfProject(s.entries, project)|
    ensures Ranked(o, r)
    ensures forall e :: e in multiset(OfProject(s.entries, project)) - multiset(r) ==>
      forall i :: 0 <= i < |r| ==> RanksAtLeast(o, r[i], e)
  {
    var sel := OfProject(s.entries, project);
    var sorted := Sort(o, sel);
    var k := if 0 <= n < |sorted| then n else |sorted|;
    PrefixAnswers(o, project, sel, sorted, k);
    sorted[..k]
  }

  /** The first `k` rows of a ranked arrangement of one project's rows. */
  lemma PrefixAnswers(o: Ranking, project: string, sel: seq<MemoryEntry>, sorted: seq<MemoryEntry>, k: nat)
    requires Ranked(o, sorted) && multiset(sorted) == multiset(sel) && k <= |sorted|
    requires forall i :: 0 <= i < |sel| ==> sel[i].project == project
    ensures |sorted| == |sel|
    ensures forall i :: 0 <= i < k ==> sorted[..k][i].project == project
    ensures multiset(sorted[..k]) <= multiset(sel)
    ensures Ranked(o, sorted[..k])
    ensures forall e :: e in multiset(sel) - multiset(sorted[..k]) ==>
      forall i :: 0 <= i < k ==> RanksAtLeast(o, sorted[..k][i], e)
  {
    assert |sorted| == |sel| by {
      assert |multiset(sorted)| == |multiset(sel)|;
    }
    PrefixRanksFirst(o, sorted, k);
    forall i | 0 <= i < k
      ensures sorted[..k][i].project == project
    {
      assert sorted[i] in multiset(sel);
      var j :| 0 <= j < |sel| && sel[j] == sorted[i];
    }
  }

  /** In a ranked sequence, every element past position `k` ranks no higher
      than any element before it. */
  lemma PrefixRanksFirst(o: Ranking, sorted: seq<MemoryEntry>, k: nat)
    requires Ranked(o, sorted) && k <= |sorted|
    ensures Ranked(o, sorted[..k])
    ensures multiset(sorted[..k]) <= multiset(sorted)
    ensures forall e :: e in multiset(sorted) - multiset(sorted[..k]) ==>
      forall i :: 0 <= i < k ==> RanksAtLeast(o, sorted[i], e)
  {
    assert sorted == sorted[..k] + sorted[k..];
    assert multiset(sorted) == multiset(sorted[..k]) + multiset(sorted[k..]);
    forall e | e in multiset(sorted) - multiset(sorted[..k])
      ensures forall i :: 0 <= i < k ==> RanksAtLeast(o, sorted[i], e)
    {
      assert e in sorted[k..];
      var j :| 0 <= j < |sorted[k..]| && sorted[k..][j] == e;
      assert sorted[k + j] == e;
    }
  }

  /** `LastNEntries(db, project, n)`: newest first. `read` is the outcome of
      preparing, running and scanning the query. */
  function LastNEntries(s: Store, project: string, n: int, read: Outcome<string>): (r: Result<seq<MemoryEntry>, string>)
    ensures read.Fail? ==> r == Failure(read.error)
    ensures read.Pass? ==>
      && r.Success?
      && (forall i :: 0 <= i < |r.value| ==> r.value[i].project == project)
      && (forall i, j :: 0 <= i < j < |r.value| ==> r.value[i].timestamp >= r.value[j].timestamp)
      && (n >= 0 ==> |r.value| <= n)
      && AnswersRecall(s, project, n, ByRecency, r.value)
  {
    match read
    case Fail(e) => Failure(e)
    case Pass => Success(Recall(s, project, n, ByRecency))
  }

  /** `TopImportantEntries(db, project, n)`: most important first, newest
      first among equals. */
  function TopImportantEntries(s: Store, project: string, n: int, read: Outcome<string>): (r: Result<seq<MemoryEntry>, string>)
    ensures read.Fail? ==> r == Failure(read.error)
    ensures read.Pass? ==>
      && r.Success?
      && (forall i :: 0 <= i < |r.value| ==> r.value[i].project == project)
      && (forall i, j :: 0 <= i < j < |r.value| ==>
            || r.value[i].importance > r.value[j].importance
            || (r.value[i].importance == r.value[j].importance && r.value[i].timestamp >= r.value[j].timestamp))
      && (n >= 0 ==> |r.value| <= n)
      && AnswersRecall(s, project, n, ByImportance, r.value)
  {
    match read
    case Fail(e) => Failure(e)
    case Pass => Success(Recall(s, project, n, ByImportance))
  }

  /** An entry added later than every stored row is the first one
      `LastNEntries` returns for its project, for any limit but zero. */
  lemma AddedEntryComesFirst(
    s: Store, project: string, role: string, content: string, importance: seq<int>, now: int, n: int)
    requires forall i :: 0 <= i < |s.entries| ==> s.entries[i].timestamp < now
    requires n != 0
    ensures var after := AddEntry(s, project, role, content, importance, now, Pass).store;
      var r := LastNEntries(after, project, n, Pass).value;
      |r| >= 1 && r[0] == after.entries[|s.entries|]
  {
    var after := AddEntry(s, project, role, content, importance, now, Pass).store;
    var e := after.entries[|s.entries|];
    assert after.entries == s.entries + [e];
    NewestAnswersFirst(after, project, n, LastNEntries(after, project, n, Pass).value, e);
  }

  /** In any answer to a query with a limit other than zero, the first row
      returned ranks at least as high as every row of the project. */
  lemma FirstRanksHighest(s: Store, project: string, n: int, o: Ranking, r: seq<MemoryEntry>, x: MemoryEntry)
    requires AnswersRecall(s, project, n, o, r) && n != 0
    requires x in s.entries && x.project == project
    ensures |r| >= 1 && RanksAtLeast(o, r[0], x)
  {
    var sel := OfProject(s.entries, project);
    assert x in multiset(sel);
    assert |r| >= 1;
    if x in multiset(r) {
      var j :| 0 <= j < |r| && r[j] == x;
      assert RanksAtLeast(o, r[0], r[j]);
    } else {
      assert x in multiset(sel) - multiset(r);
    }
  }

  /** In any answer to a non-empty recency query, a row of the project newer
      than every other stored row comes first. */
  lemma NewestAnswersFirst(s: Store, project: string, n: int, r: seq<MemoryEntry>, e: MemoryEntry)
    requires AnswersRecall(s, project, n, ByRecency, r) && n != 0
    requires e in s.entries && e.project == project
    requires forall x :: x in s.entries && x != e ==> x.timestamp < e.timestamp
    ensures |r| >= 1 && r[0] == e
  {
    FirstRanksHighest(s, project, n, ByRecency, r, e);
    assert r[0] in multiset(OfProject(s.entries, project));
    assert r[0] in s.entries;
  }

  /** The first entry `TopImportantEntries` returns carries the highest
      importance of any row of the project. */
  lemma TopEntryIsMostImportant(s: Store, project: string, n: int, x: MemoryEntry)
    requires n != 0
    requires x in s.entries && x.project == project
    ensures var r := TopImportantEntries(s, project, n, Pass).value;
      |r| >= 1 && r[0].importance >= x.importance
  {
    FirstRanksHighest(s, project, n, ByImportance, TopImportantEntries(s, project, n, Pass).value, x);
  }

  // ---------------------------------------------------------------------------
  // Projects and the active project

  /** `AddProject(db, name)`: `INSERT OR IGNORE`, so an existing name stays as
      it is. */
  function AddProject(s: Store, name: string, write: Outcome<string>): (u: Update)
    ensures u.outcome == write
    ensures write.Fail? ==> u.store == s
    ensures write.Pass? ==> u.store.projects == s.projects + {name}
    ensures u.store.active == s.active && u.store.entries == s.entries && u.store.nextId == s.nextId
  {
    match write
    case Fail(_) => Update(s, write)
    case Pass => Update(s.(projects := s.projects + {name}), Pass)
  }

  /** Adding a project that exists changes nothing; adding twice is adding
      once. */
  lemma AddProjectIdempotent(s: Store, name: string)
    ensures name in s.projects ==> AddProject(s, name, Pass).store == s
    ensures var once := AddProject(s, name, Pass).store;
      AddProject(once, name, Pass).store == once
  {
  }

  /** `SetActiveProject(db, name)`: `INSERT OR REPLACE` of the single
      `active_project` row. */
  function SetActiveProject(s: Store, name: string, write: Outcome<string>): (u: Update)
    ensures u.outcome == write
    ensures write.Fail? ==> u.store == s
    ensures write.Pass? ==> u.store.active == Some(name)
    ensures u.store.projects == s.projects && u.store.entries == s.entries && u.store.nextId == s.nextId
  {
    match write
    case Fail(_) => Update(s, write)
    case Pass => Update(s.(active := Some(name)), Pass)
  }

  /** `GetActiveProject(db)`: the stored name, `""` when no row exists.
      `read` is the outcome of the query itself. */
  function GetActiveProject(s: Store, read: Outcome<string>): (r: Result<string, string>)
    ensures r.Success? <==> read.Pass?
    ensures read.Fail? ==> r.error == read.error
    ensures read.Pass? && s.active.None? ==> r.value == ""
    ensures read.Pass? && s.active.Some? ==> r.value == s.active.value
  {
    match read
    case Fail(e) => Failure(e)
    case Pass => Success(s.active.GetOr(""))
  }

  /** Setting the active project and reading it back gives the name set,
      whatever was set before. */
  lemma SetThenGetActive(s: Store, name: string)
    ensures GetActiveProject(SetActiveProject(s, name, Pass).store, Pass) == Success(name)
  {
  }

  /** Which statement of `DeleteProject` fails, if any: the delete itself,
      reading the active project, or clearing it. */
  datatype DeleteFault =
    | NoDeleteFault
    | DeleteFails(error: string)
    | ReadActiveFails(error: string)
    | ClearFails(error: string)

  /** `DeleteProject(db, name)`: remove the name, then clear the active
      project if it was that name. The statements run outside a transaction,
      so a failure after the delete leaves the name removed. Memory rows are
      kept. */
  function DeleteProject(s: Store, name: string, fault: DeleteFault): (u: Update)
    ensures u.store.entries == s.entries && u.store.nextId == s.nextId
    ensures fault.DeleteFails? ==> u == Update(s, Fail(fault.error))
    ensures !fault.DeleteFails? ==> u.store.projects == s.projects - {name}
    ensures u.outcome.Fail? ==> u.store.active == s.active
    ensures u.outcome.Pass? <==>
      fault.NoDeleteFault? || (fault.ClearFails? && s.active.GetOr("") != name)
    ensures u.outcome.Fail? ==> u.outcome.error == fault.error
    ensures u.outcome.Pass? && s.active.GetOr("") == name ==> u.store.active.None?
    ensures u.outcome.Pass? && s.active.GetOr("") != name ==> u.store.active == s.active
  {
    if fault.DeleteFails? then Update(s, Fail(fault.error))
    else
      var removed := s.(projects := s.projects - {name});
      match GetActiveProject(removed, if fault.ReadActiveFails? then Fail(fault.error) else Pass)
      case Failure(e) => Update(removed, Fail(e))
      case Success(active) =>
        if active != name then Update(removed, Pass)
        else if fault.ClearFails? then Update(removed, Fail(fault.error))
        else Update(removed.(active := None), Pass)
  }

  /** Deleting the active project leaves no active project; deleting another
      one leaves the active project as it was. Either way the name is gone. */
  lemma DeleteThenGetActive(s: Store, name: string)
    ensures var after := DeleteProject(s, name, NoDeleteFault).store;
      && name !in after.projects
      && (GetActiveProject(s, Pass) == Success(name) ==> GetActiveProject(after, Pass) == Success(""))
      && (GetActiveProject(s, Pass) != Success(name) ==> GetActiveProject(after, Pass) == GetActiveProject(s, Pass))
  {
  }

  /** Which statement of `RenameProject`'s transaction fails, if any. */
  datatype RenameFault =
    | NoRenameFault
    | BeginFails(error: string)
    | RenameProjectsFails(error: string)
    | RenameEntriesFails(error: string)
    | ReadSettingFails(error: string)
    | RenameSettingFails(error: string)
    | CommitFails(error: string)

  /** SQLite's error for renaming onto an existing project name, which is the
      table's primary key. */
  const ProjectNameTaken: string := "UNIQUE constraint failed: projects.name"

  /** Every reference to `oldName` replaced by `newName`. */
  function Renamed(s: Store, oldName: string, newName: string): Store {
    Store(
      if oldName in s.projects then s.projects - {oldName} + {newName} else s.projects,
      if s.active == Some(oldName) then Some(newName) else s.active,
      seq(|s.entries|, i requires 0 <= i < |s.entries| =>
        if s.entries[i].project == oldName then s.entries[i].(project := newName) else s.entries[i]),
      s.nextId)
  }

  /** `RenameProject(db, oldName, newName)`: one transaction renaming the
      project, its memory rows and the active project setting; any failure
      rolls all of it back, except that an error reading the setting is
      ignored: the name read is then "". The setting is rewritten when the
      name read equals the old name, and the update changes a row only when
      one exists. */
  function RenameProject(s: Store, oldName: string, newName: string, fault: RenameFault): (u: Update)
    ensures u.outcome.Fail? ==> u.store == s
    ensures !fault.BeginFails? && oldName != newName && oldName in s.projects && newName in s.projects ==>
      u.outcome == Fail(ProjectNameTaken)
    ensures u.outcome.Pass? <==>
      && !(oldName != newName && oldName in s.projects && newName in s.projects)
      && (|| fault.NoRenameFault?
          || fault.ReadSettingFails?
          || (fault.RenameSettingFails? && s.active.GetOr("") != oldName))
    ensures u.outcome.Pass? ==>
      && u.store.projects == (if oldName in s.projects then s.projects - {oldName} + {newName} else s.projects)
      && |u.store.entries| == |s.entries|
      && (forall i :: 0 <= i < |s.entries| ==>
            u.store.entries[i].(project := s.entries[i].project) == s.entries[i])
      && (forall i :: 0 <= i < |s.entries| ==>
            u.store.entries[i].project == if s.entries[i].project == oldName then newName else s.entries[i].project)
    ensures u.outcome.Pass? && !fault.ReadSettingFails? ==>
      && (s.active == Some(oldName) ==> u.store.active == Some(newName))
      && (s.active != Some(oldName) ==> u.store.active == s.active)
    ensures u.outcome.Pass? && fault.ReadSettingFails? && oldName != "" ==> u.store.active == s.active
    ensures u.outcome.Pass? && fault.ReadSettingFails? && oldName == "" ==>
      u.store.active == (if s.active.Some? then Some(newName) else None)
  {
    if fault.BeginFails? then Update(s, Fail(fault.error))
    else if oldName != newName && oldName in s.projects && newName in s.projects then Update(s, Fail(ProjectNameTaken))
    else if fault.RenameProjectsFails? || fault.RenameEntriesFails? then Update(s, Fail(fault.error))
    else
      var read := if fault.ReadSettingFails? then "" else s.active.GetOr("");
      if read == oldName && fault.RenameSettingFails? then Update(s, Fail(fault.error))
      else if fault.CommitFails? then Update(s, Fail(fault.error))
      else
        var active := if read == oldName && s.active.Some? then Some(newName) else s.active;
        Update(Renamed(s, oldName, newName).(active := active), Pass)
  }

  /** When the setting cannot be read inside the transaction, renaming the
      active project still commits, and the setting goes on naming a project
      that no longer exists. */
  lemma RenameWithUnreadSettingLeavesStaleActive(s: Store, oldName: string, newName: string, e: string)
    requires oldName != "" && oldName != newName
    requires oldName in s.projects && newName !in s.projects && s.active == Some(oldName)
    ensures var u := RenameProject(s, oldName, newName, ReadSettingFails(e));
      && u.outcome.Pass?
      && u.store.active == Some(oldName)
      && oldName !in u.store.projects
  {
  }

  /** Renaming to a fresh name and back restores the database exactly: no
      project, row or setting is lost or merged on the way. */
  lemma RenameRoundTrip(s: Store, oldName: string, newName: string)
    requires newName !in s.projects
    requires forall i :: 0 <= i < |s.entries| ==> s.entries[i].project != newName
    requires s.active != Some(newName)
    ensures var there := RenameProject(s, oldName, newName, NoRenameFault);
      && there.outcome.Pass?
      && RenameProject(there.store, newName, oldName, NoRenameFault) == Update(s, Pass)
  {
    var there := Renamed(s, oldName, newName);
    var back := Renamed(there, newName, oldName);
    assert back.entries == s.entries;
    assert back.projects == s.projects;
  }

  /** Renaming the active project carries the setting along, and the renamed
      rows are recalled under the new name. */
  lemma RenameCarriesActive(s: Store, oldName: string, newName: string)
    requires oldName in s.projects && newName !in s.projects
    requires GetActiveProject(s, Pass) == Success(oldName) && oldName != ""
    ensures var after := RenameProject(s, oldName, newName, NoRenameFault).store;
      && GetActiveProject(after, Pass) == Success(newName)
      && newName in after.projects && oldName !in after.projects
  {
  }

  /** Names in strictly ascending byte order, so also without repeats. */
  predicate Ascending(names: seq<string>) {
    forall i, j :: 0 <= i < j < |names| ==> StrLess(names[i], names[j])
  }

  /** `ListProjects(db)`: every project name once, `ORDER BY name`. `read`
      is the outcome of running and scanning the query. */
  method ListProjects(s: Store, read: Outcome<string>) returns (r: Result<seq<string>, string>)
    ensures read.Fail? ==> r == Failure(read.error)
    ensures read.Pass? ==>
      && r.Success?
      && Ascending(r.value)
      && (forall i :: 0 <= i < |r.value| ==> r.value[i] in s.projects)
      && (forall p :: p in s.projects ==> p in r.value)
  {
    if read.Fail? {
      return Failure(read.error);
    }
    var names: seq<string> := [];
    var rest := s.projects;
    while rest != {}
      invariant rest <= s.projects
      invariant forall i :: 0 <= i < |names| ==> names[i] in s.projects && names[i] !in rest
      invariant forall p :: p in s.projects ==> p in rest || p in names
      invariant Ascending(names)
      invariant forall i, p :: 0 <= i < |names| && p in rest ==> StrLess(names[i], p)
      decreases |rest|
    {
      LeastExists(rest);
      var m :| IsLeast(m, rest);
      names := names + [m];
      rest := rest - {m};
    }
    return Success(names);
  }

  /** A set of names has only one ascending listing, so the order
      `ListProjects` returns is fully determined by the projects. */
  lemma {:induction false} AscendingUnique(a: seq<string>, b: seq<string>)
    requires Ascending(a) && Ascending(b)
    requires forall x :: x in a <==> x in b
    ensures a == b
    decreases |a| + |b|
  {
    assert forall i :: 0 <= i < |a| ==> a[i] in b;
    assert forall i :: 0 <= i < |b| ==> b[i] in a;
    if |a| > 0 && |b| > 0 {
      assert IsLeast(a[0], set x | x in a) by {
        forall x | x in a
          ensures x == a[0] || StrLess(a[0], x)
        {
          var j :| 0 <= j < |a| && a[j] == x;
        }
      }
      assert IsLeast(b[0], set x | x in a) by {
        forall x | x in a
          ensures x == b[0] || StrLess(b[0], x)
        {
          var j :| 0 <= j < |b| && b[j] == x;
        }
      }
      LeastUnique(a[0], b[0], set x | x in a);
      StrLessIrreflexive(a[0]);
      forall x
        ensures x in a[1..] <==> x in b[1..]
      {
        if x in a[1..] {
          var j :| 0 <= j < |a[1..]| && a[1..][j] == x;
          assert StrLess(a[0], a[j + 1]);
          assert x in b;
        }
        if x in b[1..] {
          var j :| 0 <= j < |b[1..]| && b[1..][j] == x;
          assert StrLess(b[0], b[j + 1]);
          assert x in a;
        }
      }
      AscendingUnique(a[1..], b[1..]);
      assert a == [a[0]] + a[1..] && b == [b[0]] + b[1..];
    }
  }

  /** `AddMemory(project, role, content, importance...)`: open the database
      (`init` is the outcome of `InitDB`), then `AddEntry`. */
  function AddMemory(
    s: Store, project: string, role: string, content: string, importance: seq<int>,
    init: Outcome<string>, now: int, write: Outcome<string>): (u: Update)
    ensures init.Fail? ==> u == Update(s, init)
    ensures init.Pass? ==> u == AddEntry(s, project, role, content, importance, now, write)
  {
    match init
    case Fail(_) => Update(s, init)
    case Pass => AddEntry(s, project, role, content, importance, now, write)
  }

  /** A line recorded through `AddMemory` with an importance, later than
      everything stored, is what a one-line recall of its project returns. */
  lemma AddMemoryThenRecall(s: Store, project: string, role: string, content: string, importance: int, now: int)
    requires forall i :: 0 <= i < |s.entries| ==> s.entries[i].timestamp < now
    ensures var after := AddMemory(s, project, role, content, [importance], Pass, now, Pass).store;
      var r := LastNEntries(after, project, 1, Pass).value;
      |r| == 1 && r[0].content == content && r[0].importance == importance
  {
    AddedEntryComesFirst(s, project, role, content, [importance], now, 1);
  }
}
