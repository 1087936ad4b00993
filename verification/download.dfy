/** `DownloadModelWithProgress`: fetch a model's detail, create
    `models/<id>`, then transfer every sibling file in registry order,
    reporting progress after each completed file and stopping at the first
    failure. File transfers are an input (`transfer`), answered per
    destination path and URL. */
module Download {
  import opened Wrappers
  import opened Text
  import opened Catalog

  /** Root directory of downloaded models, relative to the working directory. */
  const ModelsRoot: string := "models"

  const RegistryBase: string := "https://huggingface.co/"

  /** One file written by `downloadFile`: where it lands and where it comes from. */
  datatype FileTransfer = FileTransfer(path: string, url: string)

  /** One `progress(done, total)` callback. */
  datatype Progress = Progress(done: nat, total: nat)

  /** Everything a download run does: the transfers it attempted, the progress
      callbacks it made, and what it returned (the revision hash, or an error). */
  datatype DownloadRun = DownloadRun(transfers: seq<FileTransfer>, progress: seq<Progress>, result: Result<string, string>)

  /** `filepath.Join("models", id)`. */
  function ModelDir(id: string): string {
    JoinPath(ModelsRoot, id)
  }

  /** The transfer for one sibling: saved under its base name inside the
      model directory, fetched from `<id>/resolve/main/<rfilename>`. */
  function PlannedTransfer(id: string, rfilename: string): FileTransfer {
    FileTransfer(JoinPath(ModelDir(id), Base(rfilename)), RegistryBase + id + "/resolve/main/" + rfilename)
  }

  function Plan(id: string, names: seq<string>): (plan: seq<FileTransfer>)
    ensures |plan| == |names|
    ensures forall i :: 0 <= i < |names| ==> plan[i] == PlannedTransfer(id, names[i])
  {
    seq(|names|, i requires 0 <= i < |names| => PlannedTransfer(id, names[i]))
  }

  /** The transfer loop from position `i` on. Progress for file `j` is reported
      as `(j + 1, total)` and only after that file succeeded; the first failing
      transfer ends the run with its error. */
  function RunFrom(plan: seq<FileTransfer>, i: nat, sha: string, transfer: FileTransfer -> Outcome<string>): (run: DownloadRun)
    requires i <= |plan|
    ensures i + |run.transfers| <= |plan|
    ensures run.transfers == plan[i..i + |run.transfers|]
    ensures forall j :: 0 <= j < |run.transfers| - 1 ==> transfer(run.transfers[j]).Pass?
    ensures run.result.Success? <==> forall j :: i <= j < |plan| ==> transfer(plan[j]).Pass?
    ensures run.result.Success? ==> run.result.value == sha && |run.transfers| == |plan| - i
    ensures run.result.Success? ==> |run.progress| == |run.transfers|
    ensures run.result.Failure? ==>
      && |run.transfers| >= 1
      && transfer(run.transfers[|run.transfers| - 1]) == Fail(run.result.error)
      && |run.progress| == |run.transfers| - 1
    ensures forall j :: 0 <= j < |run.progress| ==> run.progress[j] == Progress(i + j + 1, |plan|)
    decreases |plan| - i
  {
    if i == |plan| then DownloadRun([], [], Success(sha))
    else
      match transfer(plan[i])
      case Fail(e) => DownloadRun([plan[i]], [], Failure(e))
      case Pass =>
        var rest := RunFrom(plan, i + 1, sha, transfer);
        assert plan[i..i + 1 + |rest.transfers|] == [plan[i]] + plan[i + 1..i + 1 + |rest.transfers|];
        DownloadRun([plan[i]] + rest.transfers, [Progress(i + 1, |plan|)] + rest.progress, rest.result)
  }

  /** `DownloadModelWithProgress(id, progress)`. A failed detail fetch or
      directory creation returns its error before any transfer. */
  function DownloadModelWithProgress(
    id: string, api: Remote<ApiModel>, mkdir: Outcome<string>, transfer: FileTransfer -> Outcome<string>): (run: DownloadRun)
    ensures api.Failure? ==> run == DownloadRun([], [], Failure(api.error))
    ensures api.Success? && mkdir.Fail? ==> run == DownloadRun([], [], Failure(mkdir.error))
    ensures run.result.Success? <==>
      && api.Success? && mkdir.Pass?
      && forall j :: 0 <= j < |api.value.siblings| ==>
           transfer(PlannedTransfer(id, api.value.siblings[j].rfilename)).Pass?
    ensures run.result.Success? ==>
      && run.result.value == api.value.sha
      && run.transfers == Plan(id, FileNames(api.value.siblings))
      && |run.progress| == |api.value.siblings|
    ensures run.result.Failure? && |run.transfers| > 0 ==>
      && api.Success?
      && |run.transfers| <= |api.value.siblings|
      && run.transfers == Plan(id, FileNames(api.value.siblings))[..|run.transfers|]
      && transfer(run.transfers[|run.transfers| - 1]) == Fail(run.result.error)
      && |run.progress| == |run.transfers| - 1
    ensures forall j :: 0 <= j < |run.progress| ==> run.progress[j] == Progress(j + 1, |api.value.siblings|)
  {
    match api
    case Failure(e) => DownloadRun([], [], Failure(e))
    case Success(m) =>
      match mkdir
      case Fail(e) => DownloadRun([], [], Failure(e))
      case Pass =>
        var plan := Plan(id, FileNames(m.siblings));
        var run := RunFrom(plan, 0, m.sha, transfer);
        assert plan[0..|run.transfers|] == plan[..|run.transfers|];
        run
  }

  /** A run of the loop from `i` whose first failing transfer is at `k` makes
      exactly `k - i` progress callbacks, attempts `k - i + 1` transfers, and
      returns that transfer's error. */
  lemma {:induction false} RunFromFailsAt(
    plan: seq<FileTransfer>, i: nat, sha: string, transfer: FileTransfer -> Outcome<string>, k: nat)
    requires i <= k < |plan|
    requires forall j :: i <= j < k ==> transfer(plan[j]).Pass?
    requires transfer(plan[k]).Fail?
    ensures var run := RunFrom(plan, i, sha, transfer);
      && run.result == Failure(transfer(plan[k]).error)
      && |run.progress| == k - i
      && |run.transfers| == k - i + 1
    decreases k - i
  {
    if i < k {
      RunFromFailsAt(plan, i + 1, sha, transfer, k);
    }
  }

  /** A failure at file k (counting from zero) comes after exactly k progress
      callbacks, and no later file is attempted. */
  lemma FailureAfterProgress(
    id: string, api: ApiModel, transfer: FileTransfer -> Outcome<string>, k: nat)
    requires k < |api.siblings|
    requires forall j :: 0 <= j < k ==> transfer(PlannedTransfer(id, api.siblings[j].rfilename)).Pass?
    requires transfer(PlannedTransfer(id, api.siblings[k].rfilename)).Fail?
    ensures var run := DownloadModelWithProgress(id, Success(api), Pass, transfer);
      && run.result == Failure(transfer(PlannedTransfer(id, api.siblings[k].rfilename)).error)
      && |run.progress| == k
      && |run.transfers| == k + 1
  {
    var plan := Plan(id, FileNames(api.siblings));
    RunFromFailsAt(plan, 0, api.sha, transfer, k);
  }

  /** Three files that all transfer report (1,3), (2,3), (3,3) and return the
      revision hash. */
  lemma ThreeFileProgress(id: string, api: ApiModel, transfer: FileTransfer -> Outcome<string>)
    requires |api.siblings| == 3
    requires forall t :: transfer(t) == Pass
    ensures DownloadModelWithProgress(id, Success(api), Pass, transfer).progress
      == [Progress(1, 3), Progress(2, 3), Progress(3, 3)]
    ensures DownloadModelWithProgress(id, Success(api), Pass, transfer).result == Success(api.sha)
  {
  }

  /** A top-level file of a model with a non-empty id lands at
      `models/<id>/<rfilename>`. */
  lemma TopLevelFilePath(id: string, rfilename: string)
    requires id != [] && rfilename != [] && '/' !in rfilename
    ensures PlannedTransfer(id, rfilename).path == "models/" + id + "/" + rfilename
  {
  }

  /** Files in different sub-folders with the same base name are written to
      the same local path, so the later one overwrites the earlier. */
  lemma NestedFilesCollide(id: string, dir1: string, dir2: string, name: string)
    requires name != [] && '/' !in name
    ensures PlannedTransfer(id, dir1 + "/" + name).path == PlannedTransfer(id, dir2 + "/" + name).path
  {
    BaseOfNested(dir1, name);
    BaseOfNested(dir2, name);
  }
}
