/** The `models` command group of the command-line client: `list` (choose a
    pipeline, print its models, starring downloaded ones), `download` (fetch
    models and record them in the state file), `use` (make a downloaded model
    active) and `status` (describe the active model). Terminal input, the
    clock and the registry are inputs; printed text is modelled by the data it
    shows. */
module Cli {
  import opened Wrappers
  import opened Text
  import opened Lifecycle
  import Download
  import Catalog

  /** The pipelines offered by `list`, numbered from 1. */
  const PipelineTypes: seq<string> :=
    ["text-generation", "text2text-generation", "text-classification", "code", "conversational"]

  /** Process-wide state of the command group: the pipeline `list` chose last
      (`""` until then), read by `download --all`. */
  datatype Session = Session(selectedPipeline: string)

  /** One printed table line: the model and whether it carries the `*`
      marker of a downloaded model. */
  datatype ListedRow = ListedRow(model: Catalog.ModelInfo, downloaded: bool)

  datatype ListRun = ListRun(session: Session, result: Result<seq<ListedRow>, string>)

  /** The choice typed at the prompt: the trimmed line scanned with `%d`,
      0 when it does not scan. */
  function ChoiceIndex(line: string): int {
    ScanInt(TrimSpace(line)).GetOr(0)
  }

  /** Marks each listed model present in the loaded state; no marks at all
      when the state could not be loaded. */
  function MarkDownloaded(list: seq<Catalog.ModelInfo>, state: Result<State, string>): (rows: seq<ListedRow>)
    ensures |rows| == |list|
    ensures forall i :: 0 <= i < |list| ==> rows[i].model == list[i]
    ensures forall i :: 0 <= i < |list| ==>
      (rows[i].downloaded <==> state.Success? && list[i].id in state.value.models)
  {
    seq(|list|, i requires 0 <= i < |list| =>
      ListedRow(list[i], state.Success? && list[i].id in state.value.models))
  }

  /** `models list`. The pipeline is remembered as soon as the choice is
      valid, before the registry is asked. */
  function List(session: Session, line: string, listing: string -> Catalog.Remote<seq<Catalog.ModelInfo>>, file: StateFile): (run: ListRun)
    ensures var k := ChoiceIndex(line);
      !(1 <= k <= |PipelineTypes|) ==> run == ListRun(session, Failure("invalid choice"))
    ensures var k := ChoiceIndex(line);
      1 <= k <= |PipelineTypes| ==>
        && run.session == Session(PipelineTypes[k - 1])
        && match Catalog.ListModelsByType(PipelineTypes[k - 1], listing)
           case Failure(e) => run.result == Failure(e)
           case Success(list) =>
             && run.result.Success?
             && |run.result.value| == |list|
             && (forall i :: 0 <= i < |list| ==> run.result.value[i].model == list[i])
             && (forall i :: 0 <= i < |list| ==>
                   (run.result.value[i].downloaded <==> LoadState(file).Success? && list[i].id in LoadState(file).value.models))
  {
    var k := ChoiceIndex(line);
    if k < 1 || k > |PipelineTypes| then ListRun(session, Failure("invalid choice"))
    else
      var pipeline := PipelineTypes[k - 1];
      var session' := Session(pipeline);
      match Catalog.ListModelsByType(pipeline, listing)
      case Failure(e) => ListRun(session', Failure(e))
      case Success(list) => ListRun(session', Success(MarkDownloaded(list, LoadState(file))))
  }

  /** Typing the number of a menu entry, with any surrounding white space,
      selects that entry. */
  lemma ChoiceSelects(session: Session, line: string, k: nat, listing: string -> Catalog.Remote<seq<Catalog.ModelInfo>>, file: StateFile)
    requires 1 <= k <= |PipelineTypes|
    requires TrimSpace(line) == Decimal(k)
    ensures List(session, line, listing, file).session == Session(PipelineTypes[k - 1])
  {
    ScanDecimal(k);
  }

  /** Zero, the value of an unreadable choice, is never a valid entry. */
  lemma UnreadableChoiceIsInvalid(session: Session, line: string, listing: string -> Catalog.Remote<seq<Catalog.ModelInfo>>, file: StateFile)
    requires ScanInt(TrimSpace(line)).None?
    ensures List(session, line, listing, file) == ListRun(session, Failure("invalid choice"))
  {
  }

  // ---------------------------------------------------------------------------
  // download

  /** The record `download` stores for a fetched model. It is not active,
      whatever the record it replaces said. */
  function Record(id: string, sha: string, now: int): LocalModel {
    LocalModel(id, "", Download.ModelDir(id), sha, now, false)
  }

  /** The model is fetched when forced or when the state does not hold it yet;
      ids recorded earlier in the same run count as held. */
  predicate NeedsDownload(s: State, id: string, force: bool) {
    force || id !in s.models
  }

  /** One pass of the download loop: skip `ids[0]` when it is held and not
      forced, else fetch it and store its record, stamped `now(0)`. */
  function RecordOne(s: State, id: string, force: bool, fetch: string -> Result<string, string>, now: nat -> int): Result<State, string> {
    if NeedsDownload(s, id, force) then
      match fetch(id)
      case Failure(e) => Failure(e)
      case Success(sha) => Success(s.(models := s.models[id := Record(id, sha, now(0))]))
    else Success(s)
  }

  /** The rest of the loop reads the clock one position later. */
  function Shift(now: nat -> int): nat -> int {
    (j: nat) => now(j + 1)
  }

  /** The download loop as it runs, position by position. */
  function RecordLoop(s: State, ids: seq<string>, force: bool, fetch: string -> Result<string, string>, now: nat -> int): Result<State, string>
    decreases |ids|
  {
    if ids == [] then Success(s)
    else
      var next :- RecordOne(s, ids[0], force, fetch, now);
      RecordLoop(next, ids[1..], force, fetch, Shift(now))
  }

  lemma IdsHeadTail(ids: seq<string>)
    requires ids != []
    ensures (set i | 0 <= i < |ids| :: ids[i]) == {ids[0]} + set i | 0 <= i < |ids[1..]| :: ids[1..][i]
    ensures forall k :: k in ids <==> k == ids[0] || k in ids[1..]
  {
    forall i | 0 <= i < |ids|
      ensures ids[i] in {ids[0]} + set i | 0 <= i < |ids[1..]| :: ids[1..][i]
    {
      if i > 0 {
        assert ids[1..][i - 1] == ids[i];
      }
    }
  }

  /** The loop keeps `active`, adds exactly the requested ids as keys, and
      leaves untouched every record it did not fetch. */
  lemma {:induction false} LoopFrame(s: State, ids: seq<string>, force: bool, fetch: string -> Result<string, string>, now: nat -> int)
    ensures var r := RecordLoop(s, ids, force, fetch, now);
      r.Success? ==>
        && r.value.active == s.active
        && r.value.models.Keys == s.models.Keys + (set i | 0 <= i < |ids| :: ids[i])
        && (forall k :: k in s.models && k !in ids ==> r.value.models[k] == s.models[k])
        && (!force ==> forall k :: k in s.models ==> r.value.models[k] == s.models[k])
    decreases |ids|
  {
    if ids != [] {
      IdsHeadTail(ids);
      var next := RecordOne(s, ids[0], force, fetch, now);
      if next.Success? {
        LoopFrame(next.value, ids[1..], force, fetch, Shift(now));
      }
    }
  }

  /** Every record the loop fetched holds the fetched hash and the instant of
      one of the positions where its id occurs. */
  lemma {:induction false} LoopRecords(s: State, ids: seq<string>, force: bool, fetch: string -> Result<string, string>, now: nat -> int)
    ensures var r := RecordLoop(s, ids, force, fetch, now);
      r.Success? ==> forall k :: k in r.value.models && (k !in s.models || (force && k in ids)) ==>
        && fetch(k).Success?
        && exists j :: 0 <= j < |ids| && ids[j] == k && r.value.models[k] == Record(k, fetch(k).value, now(j))
    decreases |ids|, 1
  {
    var r := RecordLoop(s, ids, force, fetch, now);
    if ids != [] && r.Success? {
      forall k | k in r.value.models && (k !in s.models || (force && k in ids))
        ensures fetch(k).Success?
        ensures exists j :: 0 <= j < |ids| && ids[j] == k && r.value.models[k] == Record(k, fetch(k).value, now(j))
      {
        LoopRecord(s, ids, force, fetch, now, k);
      }
    }
  }

  /** One key of `LoopRecords`: fetched at the first position, or by the rest
      of the loop. */
  lemma {:induction false} LoopRecord(s: State, ids: seq<string>, force: bool, fetch: string -> Result<string, string>, now: nat -> int, k: string)
    requires ids != [] && RecordLoop(s, ids, force, fetch, now).Success?
    requires k in RecordLoop(s, ids, force, fetch, now).value.models && (k !in s.models || (force && k in ids))
    ensures fetch(k).Success?
    ensures exists j :: 0 <= j < |ids| && ids[j] == k &&
                        RecordLoop(s, ids, force, fetch, now).value.models[k] == Record(k, fetch(k).value, now(j))
    decreases |ids|, 0
  {
    var r := RecordLoop(s, ids, force, fetch, now);
    IdsHeadTail(ids);
    var id := ids[0];
    var next := RecordOne(s, id, force, fetch, now).value;
    assert r == RecordLoop(next, ids[1..], force, fetch, Shift(now));
    if k !in next.models || (force && k in ids[1..]) {
      LoopRecords(next, ids[1..], force, fetch, Shift(now));
      var j :| 0 <= j < |ids[1..]| && ids[1..][j] == k && r.value.models[k] == Record(k, fetch(k).value, Shift(now)(j));
      assert ids[j + 1] == k;
    } else {
      LoopFrame(next, ids[1..], force, fetch, Shift(now));
      assert k == id;
      assert r.value.models[k] == next.models[k];
    }
  }

  /** A failed loop returns the error of one of the fetches. */
  lemma {:induction false} LoopFailure(s: State, ids: seq<string>, force: bool, fetch: string -> Result<string, string>, now: nat -> int)
    ensures var r := RecordLoop(s, ids, force, fetch, now);
      r.Failure? ==> exists i :: 0 <= i < |ids| && fetch(ids[i]) == Failure(r.error)
    decreases |ids|
  {
    var r := RecordLoop(s, ids, force, fetch, now);
    if ids != [] && r.Failure? {
      var next := RecordOne(s, ids[0], force, fetch, now);
      if next.Success? {
        LoopFailure(next.value, ids[1..], force, fetch, Shift(now));
        var i :| 0 <= i < |ids[1..]| && fetch(ids[1..][i]) == Failure(r.error);
        assert ids[i + 1] == ids[1..][i];
      } else {
        assert fetch(ids[0]) == Failure(r.error);
      }
    }
  }

  /** Position `i` of the loop fetches: with `--force` always, otherwise only
      when the id is neither stored nor earlier in the list (an id recorded
      earlier in the run counts as held). */
  predicate Needed(s: State, ids: seq<string>, force: bool, i: int)
    requires 0 <= i < |ids|
  {
    force || (ids[i] !in s.models && ids[i] !in ids[..i])
  }

  /** Position `i` is the first fetch of the loop that fails. */
  predicate FirstFailure(s: State, ids: seq<string>, force: bool, fetch: string -> Result<string, string>, i: int) {
    && 0 <= i < |ids|
    && Needed(s, ids, force, i)
    && fetch(ids[i]).Failure?
    && forall j :: 0 <= j < i && Needed(s, ids, force, j) ==> fetch(ids[j]).Success?
  }

  /** After the first position, the rest of the list is needed against the
      state holding the first id exactly where it was needed against the
      original state. */
  lemma NeededShift(s: State, next: State, ids: seq<string>, force: bool)
    requires ids != [] && next.models.Keys == s.models.Keys + {ids[0]}
    ensures forall i :: 0 <= i < |ids| - 1 ==> (Needed(next, ids[1..], force, i) <==> Needed(s, ids, force, i + 1))
  {
    forall i | 0 <= i < |ids| - 1
      ensures Needed(next, ids[1..], force, i) <==> Needed(s, ids, force, i + 1)
    {
      assert ids[..i + 1] == [ids[0]] + ids[1..][..i];
      assert ids[1..][i] == ids[i + 1];
    }
  }

  /** The loop succeeds iff every fetch it makes succeeds, and a failed loop
      returns the error of its first failing fetch. */
  lemma {:induction false} LoopOutcome(s: State, ids: seq<string>, force: bool, fetch: string -> Result<string, string>, now: nat -> int)
    ensures RecordLoop(s, ids, force, fetch, now).Success? <==>
      forall i :: 0 <= i < |ids| && Needed(s, ids, force, i) ==> fetch(ids[i]).Success?
    ensures RecordLoop(s, ids, force, fetch, now).Failure? ==>
      exists i :: FirstFailure(s, ids, force, fetch, i) && fetch(ids[i]) == Failure(RecordLoop(s, ids, force, fetch, now).error)
    decreases |ids|
  {
    if ids != [] {
      var r := RecordLoop(s, ids, force, fetch, now);
      assert Needed(s, ids, force, 0) <==> NeedsDownload(s, ids[0], force);
      var one := RecordOne(s, ids[0], force, fetch, now);
      if one.Failure? {
        assert FirstFailure(s, ids, force, fetch, 0);
      } else {
        var next := one.value;
        assert next.models.Keys == s.models.Keys + {ids[0]};
        NeededShift(s, next, ids, force);
        LoopOutcome(next, ids[1..], force, fetch, Shift(now));
        assert r == RecordLoop(next, ids[1..], force, fetch, Shift(now));
        assert Needed(s, ids, force, 0) ==> fetch(ids[0]).Success?;
        if r.Failure? {
          var k :| FirstFailure(next, ids[1..], force, fetch, k) && fetch(ids[1..][k]) == Failure(r.error);
          assert ids[1..][k] == ids[k + 1];
          assert FirstFailure(s, ids, force, fetch, k + 1);
        } else {
          forall i | 0 <= i < |ids| && Needed(s, ids, force, i)
            ensures fetch(ids[i]).Success?
          {
            if i > 0 {
              assert ids[1..][i - 1] == ids[i];
            }
          }
        }
        if forall i :: 0 <= i < |ids| && Needed(s, ids, force, i) ==> fetch(ids[i]).Success? {
          forall i | 0 <= i < |ids| - 1 && Needed(next, ids[1..], force, i)
            ensures fetch(ids[1..][i]).Success?
          {
            assert ids[1..][i] == ids[i + 1];
          }
        }
      }
    }
  }

  /** The download loop over `ids`. `fetch` is `DownloadModel`: the revision
      hash, or the error that stops the loop. `now(j)` is the instant the
      clock reads after fetching `ids[j]`. */
  function RecordDownloads(s: State, ids: seq<string>, force: bool, fetch: string -> Result<string, string>, now: nat -> int): (r: Result<State, string>)
    ensures r.Success? ==> r.value.active == s.active
    ensures r.Success? ==> r.value.models.Keys == s.models.Keys + set i | 0 <= i < |ids| :: ids[i]
    ensures r.Success? ==> forall k :: k in s.models && k !in ids ==> r.value.models[k] == s.models[k]
    ensures r.Success? && !force ==> forall k :: k in s.models ==> r.value.models[k] == s.models[k]
    ensures r.Success? ==> forall k :: k in r.value.models && (k !in s.models || (force && k in ids)) ==>
      && fetch(k).Success?
      && exists j :: 0 <= j < |ids| && ids[j] == k && r.value.models[k] == Record(k, fetch(k).value, now(j))
    ensures r.Failure? ==> exists i :: 0 <= i < |ids| && fetch(ids[i]) == Failure(r.error)
    ensures r.Success? <==> forall i :: 0 <= i < |ids| && Needed(s, ids, force, i) ==> fetch(ids[i]).Success?
    ensures r.Failure? ==> exists i :: FirstFailure(s, ids, force, fetch, i) && fetch(ids[i]) == Failure(r.error)
  {
    LoopOutcome(s, ids, force, fetch, now);
    LoopFrame(s, ids, force, fetch, now);
    LoopRecords(s, ids, force, fetch, now);
    LoopFailure(s, ids, force, fetch, now);
    RecordLoop(s, ids, force, fetch, now)
  }

  /** What a command leaves on disk and returns. */
  datatype CommandRun = CommandRun(file: StateFile, outcome: Outcome<string>)

  /** `models download [id]`, with `--all` and `--force`. A failed fetch
      returns before the save, so models fetched earlier in the run are on disk
      but not recorded. */
  function DownloadCommand(
    session: Session, file: StateFile, args: seq<string>, all: bool, force: bool,
    listing: string -> Catalog.Remote<seq<Catalog.ModelInfo>>,
    fetch: string -> Result<string, string>, now: nat -> int, write: Outcome<string>): (run: CommandRun)
    ensures run.outcome.Fail? ==> run.file == file
    ensures LoadState(file).Failure? ==> run == CommandRun(file, Fail(LoadState(file).error))
    ensures LoadState(file).Success? && all && session.selectedPipeline == "" ==>
      run == CommandRun(file, Fail("--all requires model type via list first"))
    ensures LoadState(file).Success? && IdsToFetch(session, args, all, listing).Stop? ==>
      run == CommandRun(file, Fail(IdsToFetch(session, args, all, listing).error))
    ensures LoadState(file).Success? && IdsToFetch(session, args, all, listing).Ids? ==>
      var recorded := RecordDownloads(LoadState(file).value, IdsToFetch(session, args, all, listing).ids, force, fetch, now);
      && (recorded.Failure? ==> run == CommandRun(file, Fail(recorded.error)))
      && (recorded.Success? && write.Fail? ==> run == CommandRun(file, write))
      && (recorded.Success? && write.Pass? ==> run.outcome.Pass? && LoadState(run.file) == Success(recorded.value))
    ensures run.outcome.Pass? <==>
      && LoadState(file).Success?
      && IdsToFetch(session, args, all, listing).Ids?
      && RecordDownloads(LoadState(file).value, IdsToFetch(session, args, all, listing).ids, force, fetch, now).Success?
      && write.Pass?
    ensures run.outcome.Pass? ==>
      && write.Pass?
      && LoadState(file).Success?
      && LoadState(run.file).Success?
      && LoadState(run.file).value.active == LoadState(file).value.active
      && LoadState(file).value.models.Keys <= LoadState(run.file).value.models.Keys
      && (!all ==> LoadState(run.file).value.models.Keys == LoadState(file).value.models.Keys + set i | 0 <= i < |args| :: args[i])
  {
    match LoadState(file)
    case Failure(e) => CommandRun(file, Fail(e))
    case Success(s) =>
      match IdsToFetch(session, args, all, listing)
      case Stop(e) => CommandRun(file, Fail(e))
      case Ids(ids) =>
        match RecordDownloads(s, ids, force, fetch, now)
        case Failure(e) => CommandRun(file, Fail(e))
        case Success(s') =>
          var saved := SaveState(file, s', write);
          CommandRun(saved.file, saved.outcome)
  }

  /** The ids `download` works through: the arguments, or with `--all` the
      ids of the remembered pipeline's listing. */
  function IdsToFetch(session: Session, args: seq<string>, all: bool, listing: string -> Catalog.Remote<seq<Catalog.ModelInfo>>): (r: IdsOrStop)
    ensures !all ==> r == Ids(args)
    ensures all && session.selectedPipeline == "" ==> r == Stop("--all requires model type via list first")
    ensures all && session.selectedPipeline != "" ==>
      match Catalog.ListModelsByType(session.selectedPipeline, listing)
      case Failure(e) => r == Stop(e)
      case Success(list) => r.Ids? && |r.ids| == |list| && forall i :: 0 <= i < |list| ==> r.ids[i] == list[i].id
  {
    if !all then Ids(args)
    else if session.selectedPipeline == "" then Stop("--all requires model type via list first")
    else
      match Catalog.ListModelsByType(session.selectedPipeline, listing)
      case Failure(e) => Stop(e)
      case Success(list) => Ids(seq(|list|, i requires 0 <= i < |list| => list[i].id))
  }

  /** The ids to fetch, or the error that ends the command before any fetch. */
  datatype IdsOrStop = Ids(ids: seq<string>) | Stop(error: string)

  /** Re-downloading the active model with `--force` replaces its record with
      an inactive one while `active` still names it, so the two records of the
      active model disagree. */
  lemma ForceRedownloadOfActiveBreaksConsistency(s: State, fetch: string -> Result<string, string>, now: nat -> int)
    requires Consistent(s) && s.active != ""
    requires fetch(s.active).Success?
    ensures RecordDownloads(s, [s.active], true, fetch, now).Success?
    ensures !Consistent(RecordDownloads(s, [s.active], true, fetch, now).value)
  {
    var r := RecordDownloads(s, [s.active], true, fetch, now).value;
    assert r.models[s.active] == Record(s.active, fetch(s.active).value, now(0));
  }

  /** Without `--force`, `download` never touches an existing record, so it
      keeps the active model consistent. */
  lemma DownloadKeepsConsistency(s: State, ids: seq<string>, fetch: string -> Result<string, string>, now: nat -> int)
    requires Consistent(s)
    requires RecordDownloads(s, ids, false, fetch, now).Success?
    ensures Consistent(RecordDownloads(s, ids, false, fetch, now).value)
  {
    var r := RecordDownloads(s, ids, false, fetch, now).value;
    forall k | k in r.models
      ensures r.models[k].active <==> r.active != "" && k == r.active
    {
      if k !in s.models {
        assert !r.models[k].active;
        assert s.active == "" || k != s.active;
      }
    }
  }

  /** Running the same download again without `--force` fetches nothing and
      changes nothing, whatever the registry would now answer. */
  lemma {:induction false} DownloadRerunIsIdle(
    s: State, ids: seq<string>, fetch: string -> Result<string, string>, now: nat -> int)
    requires forall i :: 0 <= i < |ids| ==> ids[i] in s.models
    ensures RecordDownloads(s, ids, false, fetch, now) == Success(s)
    decreases |ids|
  {
    if ids != [] {
      assert forall i :: 0 <= i < |ids[1..]| ==> ids[1..][i] == ids[i + 1];
      DownloadRerunIsIdle(s, ids[1..], fetch, Shift(now));
    }
  }

  // ---------------------------------------------------------------------------
  // use and status

  /** `models use <id>`: the selection step of `ActivateModel` with its own
      error text and without returning the path. */
  function Use(file: StateFile, id: string, write: Outcome<string>): (run: CommandRun)
    ensures run.outcome.Fail? ==> run.file == file
    ensures LoadState(file).Failure? ==> run == CommandRun(file, Fail(LoadState(file).error))
    ensures LoadState(file).Success? && id !in LoadState(file).value.models ==>
      run == CommandRun(file, Fail("model not downloaded: " + id))
    ensures LoadState(file).Success? && id in LoadState(file).value.models && write.Fail? ==>
      run == CommandRun(file, write)
    ensures run.outcome.Pass? <==>
      LoadState(file).Success? && id in LoadState(file).value.models && write.Pass?
    ensures run.outcome.Pass? ==>
      && LoadState(run.file).Success?
      && LoadState(run.file).value.active == id
      && (id != "" ==> Consistent(LoadState(run.file).value))
      && LoadState(run.file) == Success(MarkActive(LoadState(file).value, id).value)
  {
    match LoadState(file)
    case Failure(e) => CommandRun(file, Fail(e))
    case Success(s) =>
      match MarkActive(s, id)
      case None => CommandRun(file, Fail("model not downloaded: " + id))
      case Some(next) =>
        var saved := SaveState(file, next, write);
        CommandRun(saved.file, saved.outcome)
  }

  /** `use` and the server's `ActivateModel` leave the same state file. */
  lemma UseMatchesActivateModel(file: StateFile, id: string, write: Outcome<string>)
    ensures Use(file, id, write).file == ActivateModel(file, id, write).file
    ensures Use(file, id, write).outcome.Pass? <==> ActivateModel(file, id, write).result.Success?
  {
  }

  /** What `models status` reports. `NilDereference` is the panic of reading
      through the missing record when `active` names no downloaded model. */
  datatype StatusReport = LoadFailed(error: string) | NoActiveModel | ActiveModel(model: LocalModel) | NilDereference

  function Status(file: StateFile): (report: StatusReport)
    ensures report.LoadFailed? <==> LoadState(file).Failure?
    ensures report == NoActiveModel <==> LoadState(file).Success? && LoadState(file).value.active == ""
    ensures report.ActiveModel? ==>
      var s := LoadState(file).value;
      s.active in s.models && report.model == s.models[s.active]
    ensures report == NilDereference <==> LoadState(file).Success? && !ActiveIsKey(LoadState(file).value)
  {
    match LoadState(file)
    case Failure(e) => LoadFailed(e)
    case Success(s) =>
      if s.active == "" then NoActiveModel
      else if s.active !in s.models then NilDereference
      else ActiveModel(s.models[s.active])
  }

  /** After a successful `use`, `status` shows the chosen model, flagged
      active. */
  lemma StatusAfterUse(file: StateFile, id: string)
    requires Use(file, id, Pass).outcome.Pass?
    requires id != ""
    ensures Status(Use(file, id, Pass).file).ActiveModel?
    ensures Status(Use(file, id, Pass).file).model.active
  {
  }

  /** A state written only by `download` and `use` never makes `status`
      panic: both keep `active` naming a downloaded model. */
  lemma DownloadThenStatusIsSafe(
    session: Session, file: StateFile, args: seq<string>, all: bool, force: bool,
    listing: string -> Catalog.Remote<seq<Catalog.ModelInfo>>,
    fetch: string -> Result<string, string>, now: nat -> int)
    requires LoadState(file).Success? && ActiveIsKey(LoadState(file).value)
    requires DownloadCommand(session, file, args, all, force, listing, fetch, now, Pass).outcome.Pass?
    ensures !Status(DownloadCommand(session, file, args, all, force, listing, fetch, now, Pass).file).NilDereference?
  {
  }
}
