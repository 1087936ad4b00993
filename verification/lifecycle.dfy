/** The local half of the models package: the persisted state of downloaded
    models (`models/state.json`), loading and saving it, and making one
    downloaded model the active one. The state file is modelled by what a
    load can observe; a save either replaces it or fails and leaves it as it
    was. */
module Lifecycle {
  import opened Wrappers

  /** A downloaded model. `downloaded` is the download time, as an instant. */
  datatype LocalModel = LocalModel(
    id: string,
    modelType: string,
    path: string,
    version: string,
    downloaded: int,
    active: bool)

  /** The persisted state. The active model is named twice: by `active`, and
      by the `active` flag of the records. `""` means no active model. */
  datatype State = State(active: string, models: map<string, LocalModel>)

  /** What `models/state.json` holds as far as `LoadState` can tell: nothing,
      something it cannot open or decode, or a decoded document whose `models`
      object may be absent or null. */
  datatype StateFile =
    | Missing
    | Unreadable(error: string)
    | Malformed(error: string)
    | Stored(activeModel: string, entries: Option<map<string, LocalModel>>)

  const EmptyState: State := State("", map[])

  /** `LoadState`. A missing file is an empty state; an absent `models` object
      becomes an empty map rather than nil. */
  function LoadState(file: StateFile): (r: Result<State, string>)
    ensures r.Success? <==> file.Missing? || file.Stored?
    ensures file.Missing? ==> r == Success(EmptyState)
    ensures r.Failure? ==> r.error == file.error
    ensures file.Stored? ==> r.value.active == file.activeModel
    ensures file.Stored? && file.entries.None? ==> r.value.models == map[]
    ensures file.Stored? && file.entries.Some? ==> r.value.models == file.entries.value
  {
    match file
    case Missing => Success(EmptyState)
    case Unreadable(e) => Failure(e)
    case Malformed(e) => Failure(e)
    case Stored(active, entries) => Success(State(active, entries.GetOr(map[])))
  }

  /** The state file after a save, and the error the save returned. */
  datatype Saved = Saved(file: StateFile, outcome: Outcome<string>)

  /** `SaveState`. `write` is the outcome of creating the directory, the file
      and encoding into it; a failed write leaves the previous file in place. */
  function SaveState(file: StateFile, s: State, write: Outcome<string>): (saved: Saved)
    ensures saved.outcome == write
    ensures write.Fail? ==> saved.file == file
    ensures write.Pass? ==> LoadState(saved.file) == Success(s)
  {
    match write
    case Fail(e) => Saved(file, write)
    case Pass => Saved(Stored(s.active, Some(s.models)), Pass)
  }

  // ---------------------------------------------------------------------------
  // The active model

  /** `active`, when set, names a downloaded model. */
  predicate ActiveIsKey(s: State) {
    s.active == "" || s.active in s.models
  }

  /** Both representations of the active model agree: exactly the record
      stored under `active` carries the flag, and none does when no model is
      active. */
  predicate Consistent(s: State) {
    && ActiveIsKey(s)
    && forall k :: k in s.models ==> (s.models[k].active <==> s.active != "" && k == s.active)
  }

  /** The selection step shared by `ActivateModel` and `models use`: clear
      every flag, set the chosen record's flag and name it active. `None` when
      the model has not been downloaded. */
  function MarkActive(s: State, id: string): (r: Option<State>)
    ensures r.None? <==> id !in s.models
    ensures r.Some? ==> r.value.active == id && ActiveIsKey(r.value)
    ensures r.Some? ==> forall k :: k in r.value.models ==> (r.value.models[k].active <==> k == id)
    ensures r.Some? && id != "" ==> Consistent(r.value)
    ensures r.Some? ==> r.value.models.Keys == s.models.Keys
    ensures r.Some? ==> forall k :: k in s.models ==> r.value.models[k].(active := false) == s.models[k].(active := false)
  {
    if id !in s.models then None
    else Some(State(id, map k | k in s.models :: s.models[k].(active := k == id)))
  }

  /** Selecting the same model twice is the same as selecting it once. */
  lemma MarkActiveIdempotent(s: State, id: string)
    requires id in s.models
    ensures MarkActive(MarkActive(s, id).value, id) == MarkActive(s, id)
  {
    var once := MarkActive(s, id).value;
    var twice := MarkActive(once, id).value;
    assert twice.models == once.models;
  }

  /** Only the last selection matters: selecting `a` and then `b` ends in the
      same state as selecting `b` alone. */
  lemma MarkActiveLastWins(s: State, a: string, b: string)
    requires a in s.models && b in s.models
    ensures MarkActive(MarkActive(s, a).value, b) == MarkActive(s, b)
  {
    var viaA := MarkActive(MarkActive(s, a).value, b).value;
    var direct := MarkActive(s, b).value;
    assert viaA.models == direct.models;
  }

  /** What `ActivateModel` leaves on disk and returns. */
  datatype Activation = Activation(file: StateFile, result: Result<string, string>)

  /** `ActivateModel(id)`: on success the model's local path. */
  function ActivateModel(file: StateFile, id: string, write: Outcome<string>): (a: Activation)
    ensures a.result.Failure? ==> a.file == file
    ensures LoadState(file).Failure? ==> a.result == Failure(LoadState(file).error)
    ensures LoadState(file).Success? && id !in LoadState(file).value.models ==>
      a.result == Failure("model not downloaded")
    ensures LoadState(file).Success? && id in LoadState(file).value.models && write.Fail? ==>
      a.result == Failure(write.error)
    ensures a.result.Success? <==>
      LoadState(file).Success? && id in LoadState(file).value.models && write.Pass?
    ensures a.result.Success? ==>
      && a.result.value == LoadState(file).value.models[id].path
      && LoadState(a.file).Success?
      && LoadState(a.file).value.active == id
      && (id != "" ==> Consistent(LoadState(a.file).value))
      && LoadState(a.file).value.models.Keys == LoadState(file).value.models.Keys
    ensures a.result.Success? ==> LoadState(a.file) == Success(MarkActive(LoadState(file).value, id).value)
  {
    match LoadState(file)
    case Failure(e) => Activation(file, Failure(e))
    case Success(s) =>
      match MarkActive(s, id)
      case None => Activation(file, Failure("model not downloaded"))
      case Some(next) =>
        var saved := SaveState(file, next, write);
        match saved.outcome
        case Fail(e) => Activation(file, Failure(e))
        case Pass => Activation(saved.file, Success(s.models[id].path))
  }
}
