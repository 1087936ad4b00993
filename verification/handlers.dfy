/** The HTTP handlers of the model API: listing a pipeline (served from the
    cache when it can be), the per-model routes under `/api/models/`, and the
    forced refresh of a listing. Each handler is a function from the request,
    the server's local state (the cache database, if it opened, and the state
    file) and the registry's answers to the response and the new local state.
    Failures of cache writes are logged and otherwise ignored, as in the
    handlers themselves. */
module Handlers {
  import opened Wrappers
  import opened Text
  import opened Download
  import opened Lifecycle
  import Catalog
  import ModelCache

  const MethodGet: string := "GET"
  const MethodPost: string := "POST"

  const StatusBadRequest: int := 400
  const StatusMethodNotAllowed: int := 405
  const StatusInternalServerError: int := 500

  /** The prefix the per-model routes are mounted under. */
  const ActionPrefix: string := "/api/models/"

  /** A request: method, decoded path, and query parameters. */
  datatype Request = Request(verb: string, path: string, query: map<string, string>)

  /** `URL.Query().Get(key)`: the empty string when absent. */
  function Query(req: Request, key: string): string {
    if key in req.query then req.query[key] else ""
  }

  /** What a JSON body carries. */
  datatype Payload =
    | ModelList(models: seq<Catalog.ModelInfo>)
    | Metadata(metadata: Catalog.ModelMetadata)
    | Detail(detail: Catalog.ModelDetail)
    | GlobalStats(totalModels: int)

  /** One server-sent event of the download stream. */
  datatype Event = ProgressEvent(percent: int) | ErrorEvent(message: string) | DoneEvent

  datatype Response =
    | Json(payload: Payload)
    | HttpError(status: int, message: string)
    | NoContent
    | NotFound
    | EventStream(events: seq<Event>)

  /** The server's local state: the cache table when `InitDB` succeeds, and the
      model state file. */
  datatype Server = Server(cache: Option<ModelCache.Table>, stateFile: StateFile)

  /** The registry's answers: listings by URL, model documents and configs by
      id, the global count reply, and file transfers. */
  datatype Registry = Registry(
    listing: string -> Catalog.Remote<seq<Catalog.ModelInfo>>,
    model: string -> Catalog.Remote<Catalog.ApiModel>,
    config: string -> Catalog.Remote<Catalog.ModelConfig>,
    stats: Catalog.Remote<Catalog.StatsResponse>,
    transfer: FileTransfer -> Outcome<string>)

  /** The outcomes of the local reads and side effects a request may cause.
      The metadata save needs none: as written it fails before it runs. */
  datatype Faults = Faults(
    listRead: Outcome<string>,
    metadataRead: Outcome<string>,
    listSave: ModelCache.TxFault,
    stateWrite: Outcome<string>,
    mkdir: Outcome<string>,
    loadModel: string -> Outcome<string>)

  datatype Reply = Reply(response: Response, server: Server)

  function MethodNotAllowed(srv: Server): Reply {
    Reply(HttpError(StatusMethodNotAllowed, "method not allowed"), srv)
  }

  /** Stores a fetched listing in the cache, when there is one. */
  function CacheList(srv: Server, pipeline: string, list: seq<Catalog.ModelInfo>, fault: ModelCache.TxFault): Server {
    match srv.cache
    case None => srv
    case Some(t) => srv.(cache := Some(ModelCache.SaveModelList(t, pipeline, list, fault).table))
  }

  /** The cached listing for `pipeline`; a read error leaves it empty. */
  function CachedList(srv: Server, pipeline: string, faults: Faults): (list: seq<Catalog.ModelInfo>)
    requires srv.cache.Some?
    ensures faults.listRead.Fail? ==> list == []
    ensures faults.listRead.Pass? ==> list == ModelCache.GetModelList(srv.cache.value, pipeline, Pass).value
  {
    match ModelCache.GetModelList(srv.cache.value, pipeline, faults.listRead)
    case Failure(_) => []
    case Success(list) => list
  }

  /** The cached listing is served when the cache opened, no refresh was asked
      for and its read found at least one model for the pipeline. */
  predicate ServedFromCache(srv: Server, faults: Faults, pipeline: string, refresh: bool) {
    srv.cache.Some? && !refresh && |CachedList(srv, pipeline, faults)| > 0
  }

  /** `ModelsHandler`. */
  function ModelsHandler(req: Request, srv: Server, reg: Registry, faults: Faults): (r: Reply)
    ensures r.server.stateFile == srv.stateFile
    ensures req.verb != MethodGet ==> r == MethodNotAllowed(srv)
    ensures req.verb == MethodGet && Query(req, "pipeline") == "" ==>
      r == Reply(HttpError(StatusBadRequest, "pipeline required"), srv)
    ensures r.response.Json? ==> req.verb == MethodGet && Query(req, "pipeline") != "" && r.response.payload.ModelList?
    ensures req.verb == MethodGet && Query(req, "pipeline") != ""
            && ServedFromCache(srv, faults, Query(req, "pipeline"), Query(req, "refresh") == "1") ==>
      r == Reply(Json(ModelList(CachedList(srv, Query(req, "pipeline"), faults))), srv)
    ensures r.response.Json? && ServedFromCache(srv, faults, Query(req, "pipeline"), Query(req, "refresh") == "1") ==>
      && r.server == srv
      && forall m :: m in r.response.payload.models <==>
           exists row :: row in srv.cache.value && row.pipeline == Query(req, "pipeline") && m == ModelCache.InfoOfRow(row)
    ensures (req.verb == MethodGet && Query(req, "pipeline") != ""
             && !ServedFromCache(srv, faults, Query(req, "pipeline"), Query(req, "refresh") == "1")) ==>
      match Catalog.ListModelsByType(Query(req, "pipeline"), reg.listing)
      case Failure(e) => r == Reply(HttpError(StatusInternalServerError, e), srv)
      case Success(list) => r == Reply(Json(ModelList(list)), CacheList(srv, Query(req, "pipeline"), list, faults.listSave))
  {
    if req.verb != MethodGet then MethodNotAllowed(srv)
    else
      var pipeline := Query(req, "pipeline");
      if pipeline == "" then Reply(HttpError(StatusBadRequest, "pipeline required"), srv)
      else
        var refresh := Query(req, "refresh") == "1";
        var cached := if srv.cache.Some? && !refresh then CachedList(srv, pipeline, faults) else [];
        if |cached| > 0 && !refresh then Reply(Json(ModelList(cached)), srv)
        else
          match Catalog.ListModelsByType(pipeline, reg.listing)
          case Failure(e) => Reply(HttpError(StatusInternalServerError, e), srv)
          case Success(list) => Reply(Json(ModelList(list)), CacheList(srv, pipeline, list, faults.listSave))
  }

  /** `RefreshModelsHandler`: always fetches, then stores the listing. */
  function RefreshModelsHandler(req: Request, srv: Server, reg: Registry, faults: Faults): (r: Reply)
    ensures r.server.stateFile == srv.stateFile
    ensures req.verb != MethodPost ==> r == MethodNotAllowed(srv)
    ensures req.verb == MethodPost && Query(req, "pipeline") == "" ==>
      r == Reply(HttpError(StatusBadRequest, "pipeline required"), srv)
    ensures req.verb == MethodPost && Query(req, "pipeline") != "" ==>
      match Catalog.ListModelsByType(Query(req, "pipeline"), reg.listing)
      case Failure(e) => r == Reply(HttpError(StatusInternalServerError, e), srv)
      case Success(list) => r == Reply(Json(ModelList(list)), CacheList(srv, Query(req, "pipeline"), list, faults.listSave))
  {
    if req.verb != MethodPost then MethodNotAllowed(srv)
    else
      var pipeline := Query(req, "pipeline");
      if pipeline == "" then Reply(HttpError(StatusBadRequest, "pipeline required"), srv)
      else
        match Catalog.ListModelsByType(pipeline, reg.listing)
        case Failure(e) => Reply(HttpError(StatusInternalServerError, e), srv)
        case Success(list) => Reply(Json(ModelList(list)), CacheList(srv, pipeline, list, faults.listSave))
  }

  /** After a successful refresh of a non-empty listing, a plain listing
      request is answered from the cache: its reply is the same whatever the
      registry would now say, and it includes the last model refreshed. */
  lemma RefreshThenListIsCached(
    pipeline: string, srv: Server, reg: Registry, later: Registry, faults: Faults, list: seq<Catalog.ModelInfo>)
    requires pipeline != "" && srv.cache.Some?
    requires Catalog.ListModelsByType(pipeline, reg.listing) == Success(list) && list != []
    requires faults.listSave == ModelCache.NoFault && faults.listRead == Pass
    ensures var refreshed := RefreshModelsHandler(Request(MethodPost, "", map["pipeline" := pipeline]), srv, reg, faults).server;
      var r := ModelsHandler(Request(MethodGet, "", map["pipeline" := pipeline]), refreshed, later, faults);
      && r.response.Json?
      && r.server == refreshed
      && list[|list| - 1] in r.response.payload.models
  {
    var req := Request(MethodGet, "", map["pipeline" := pipeline]);
    assert Query(req, "pipeline") == pipeline;
    assert Query(req, "refresh") == "";
    var refreshed := RefreshModelsHandler(Request(MethodPost, "", map["pipeline" := pipeline]), srv, reg, faults).server;
    ModelCache.SavedListIsListed(srv.cache.value, pipeline, list, |list| - 1);
    assert refreshed.cache == Some(ModelCache.SaveModelList(srv.cache.value, pipeline, list, ModelCache.NoFault).table);
    assert list[|list| - 1] in CachedList(refreshed, pipeline, faults);
  }

  // ---------------------------------------------------------------------------
  // Per-model routes

  /** Applies `url.PathUnescape`, keeping the input when it is malformed. */
  function UnescapeOrKeep(s: string): (r: string)
    ensures '%' !in s ==> r == s
  {
    var decoded := PathUnescape(s);
    assert '%' !in s ==> decoded == Some(s) by {
      if '%' !in s {
        UnescapePlain(s);
      }
    }
    match decoded
    case Some(d) => d
    case None => s
  }

  /** The cached metadata for `id`; a read or scan error counts as a miss. */
  function CachedMetadata(srv: Server, id: string, faults: Faults): (md: Option<Catalog.ModelMetadata>)
    requires srv.cache.Some?
    ensures faults.metadataRead.Fail? ==> md == None
    ensures md.Some? <==> ModelCache.GetModelMetadata(srv.cache.value, id, faults.metadataRead).Success?
                          && ModelCache.GetModelMetadata(srv.cache.value, id, faults.metadataRead).value.Some?
    ensures md.Some? ==> ModelCache.GetModelMetadata(srv.cache.value, id, faults.metadataRead) == Success(md)
  {
    match ModelCache.GetModelMetadata(srv.cache.value, id, faults.metadataRead)
    case Failure(_) => None
    case Success(cached) => cached
  }

  /** The answer built from the registry: its metadata, or a 500 carrying the
      registry's error. */
  function FetchedDetail(id: string, reg: Registry): (resp: Response)
    ensures resp.Json? <==> Catalog.GetModelMetadata(id, reg.model(id), reg.config(id)).Success?
    ensures resp.Json? ==> resp == Json(Metadata(Catalog.GetModelMetadata(id, reg.model(id), reg.config(id)).value))
    ensures !resp.Json? ==>
      resp == HttpError(StatusInternalServerError, Catalog.GetModelMetadata(id, reg.model(id), reg.config(id)).error)
  {
    match Catalog.GetModelMetadata(id, reg.model(id), reg.config(id))
    case Failure(e) => HttpError(StatusInternalServerError, e)
    case Success(md) => Json(Metadata(md))
  }

  /** `GET /api/models/{id}`: cached metadata, else fetched metadata, whose
      save into the cache under the empty pipeline always fails (its insert
      has one placeholder too few) and is only logged. A cache read error is
      treated as a miss. */
  function DetailRoute(req: Request, id: string, srv: Server, reg: Registry, faults: Faults): (r: Reply)
    ensures r.server == srv
    ensures req.verb != MethodGet ==> r == MethodNotAllowed(srv)
    ensures r.response.Json? ==> r.response.payload.Metadata?
    ensures (req.verb == MethodGet && Query(req, "refresh") != "1" && srv.cache.Some?
             && CachedMetadata(srv, id, faults).Some?) ==>
      r == Reply(Json(Metadata(CachedMetadata(srv, id, faults).value)), srv)
    ensures (req.verb == MethodGet
             && (Query(req, "refresh") == "1" || srv.cache.None? || CachedMetadata(srv, id, faults).None?)) ==>
      r == Reply(FetchedDetail(id, reg), srv)
  {
    if req.verb != MethodGet then MethodNotAllowed(srv)
    else
      var refresh := Query(req, "refresh") == "1";
      var cached := if srv.cache.Some? && !refresh then CachedMetadata(srv, id, faults) else None;
      if cached.Some? then Reply(Json(Metadata(cached.value)), srv)
      else
        match Catalog.GetModelMetadata(id, reg.model(id), reg.config(id))
        case Failure(e) => Reply(HttpError(StatusInternalServerError, e), srv)
        case Success(md) =>
          var srv' := match srv.cache
            case None => srv
            case Some(t) => srv.(cache := Some(ModelCache.SaveModelMetadata(t, "", md).table));
          Reply(Json(Metadata(md)), srv')
  }

  /** `GET /api/models/stats/global`. */
  function GlobalStatsRoute(req: Request, srv: Server, reg: Registry): (r: Reply)
    ensures r.server == srv
    ensures req.verb != MethodGet ==> r == MethodNotAllowed(srv)
    ensures req.verb == MethodGet ==>
      match Catalog.GetGlobalStats(reg.stats)
      case Failure(e) => r.response == HttpError(StatusInternalServerError, e)
      case Success(n) => r.response == Json(GlobalStats(n))
  {
    if req.verb != MethodGet then MethodNotAllowed(srv)
    else
      match Catalog.GetGlobalStats(reg.stats)
      case Failure(e) => Reply(HttpError(StatusInternalServerError, e), srv)
      case Success(n) => Reply(Json(GlobalStats(n)), srv)
  }

  /** `POST /api/models/{id}/enable`: activate and save, then load. The state is
      saved before the load, so a model that fails to load stays active. */
  function EnableRoute(req: Request, id: string, srv: Server, faults: Faults): (r: Reply)
    ensures r.server.cache == srv.cache
    ensures req.verb != MethodPost ==> r == MethodNotAllowed(srv)
    ensures req.verb == MethodPost ==>
      var a := ActivateModel(srv.stateFile, id, faults.stateWrite);
      && r.server.stateFile == a.file
      && (a.result.Failure? ==> r.response == HttpError(StatusBadRequest, a.result.error))
      && (a.result.Success? && faults.loadModel(a.result.value).Fail? ==>
            r.response == HttpError(StatusInternalServerError, faults.loadModel(a.result.value).error))
      && (r.response == NoContent <==> a.result.Success? && faults.loadModel(a.result.value).Pass?)
    ensures r.server.stateFile != srv.stateFile ==>
      LoadState(r.server.stateFile).Success? && LoadState(r.server.stateFile).value.active == id
  {
    if req.verb != MethodPost then MethodNotAllowed(srv)
    else
      var a := ActivateModel(srv.stateFile, id, faults.stateWrite);
      var srv' := srv.(stateFile := a.file);
      match a.result
      case Failure(e) => Reply(HttpError(StatusBadRequest, e), srv')
      case Success(path) =>
        match faults.loadModel(path)
        case Fail(e) => Reply(HttpError(StatusInternalServerError, e), srv')
        case Pass => Reply(NoContent, srv')
  }

  /** Multiplying by a natural number keeps the order. */
  lemma {:induction false} MulMonotone(a: int, b: int, c: nat)
    requires a <= b
    ensures a * c <= b * c
    decreases c
  {
    if c > 0 {
      MulMonotone(a, b, c - 1);
      assert a * c == a * (c - 1) + a;
      assert b * c == b * (c - 1) + b;
    }
  }

  /** Euclidean division of `x` by a positive `t`, as a product and a
      remainder. */
  lemma QuotientRemainder(x: int, t: int)
    requires t > 0
    ensures x == (x / t) * t + x % t && 0 <= x % t < t
  {
  }

  /** A share of at most the whole is at most 100 percent. */
  lemma PercentBounds(done: int, total: int)
    requires 0 < done <= total
    ensures 0 <= (done * 100) / total <= 100
    ensures done == total ==> (done * 100) / total == 100
  {
    var x := done * 100;
    var q := x / total;
    QuotientRemainder(x, total);
    assert x <= 100 * total;
    if q > 100 {
      MulMonotone(101, q, total);
      assert false;
    }
    if q < 0 {
      MulMonotone(q, -1, total);
      assert false;
    }
    if done == total && q < 100 {
      MulMonotone(q, 99, total);
      assert false;
    }
  }

  /** The integer percentage of a progress callback (`done / total * 100`). */
  function Percent(p: Progress): (pct: int)
    ensures 0 < p.done <= p.total ==> 0 <= pct <= 100
    ensures p.done == p.total && p.total > 0 ==> pct == 100
  {
    if p.total == 0 then 0
    else if 0 < p.done <= p.total then
      PercentBounds(p.done, p.total);
      (p.done * 100) / p.total
    else (p.done * 100) / p.total
  }

  /** The event stream of a download run: one progress event per completed
      file, then an error event or a done event. */
  function StreamOf(run: DownloadRun): (events: seq<Event>)
    ensures |events| == |run.progress| + 1
    ensures forall i :: 0 <= i < |run.progress| ==> events[i] == ProgressEvent(Percent(run.progress[i]))
    ensures events[|events| - 1] == if run.result.Success? then DoneEvent else ErrorEvent(run.result.error)
  {
    seq(|run.progress|, i requires 0 <= i < |run.progress| => ProgressEvent(Percent(run.progress[i])))
      + [if run.result.Success? then DoneEvent else ErrorEvent(run.result.error)]
  }

  /** `GET /api/models/{id}/download`: streams progress; writes model files but
      records nothing in the state file. */
  function DownloadRoute(req: Request, id: string, srv: Server, reg: Registry, faults: Faults): (r: Reply)
    ensures r.server == srv
    ensures req.verb != MethodGet ==> r == MethodNotAllowed(srv)
    ensures req.verb == MethodGet ==>
      r.response == EventStream(StreamOf(DownloadModelWithProgress(id, reg.model(id), faults.mkdir, reg.transfer)))
  {
    if req.verb != MethodGet then MethodNotAllowed(srv)
    else Reply(EventStream(StreamOf(DownloadModelWithProgress(id, reg.model(id), faults.mkdir, reg.transfer))), srv)
  }

  /** A stream that completes reports 100 percent just before `done` when
      the model has at least one file. */
  lemma CompletedStreamEndsAtHundred(run: DownloadRun)
    requires run.result.Success? && |run.progress| > 0
    requires run.progress[|run.progress| - 1].done == run.progress[|run.progress| - 1].total > 0
    ensures var events := StreamOf(run);
      events[|events| - 2] == ProgressEvent(100) && events[|events| - 1] == DoneEvent
  {
  }

  /** `GET /api/models/{id}/stats`: the registry detail. */
  function ModelStatsRoute(req: Request, id: string, srv: Server, reg: Registry): (r: Reply)
    ensures r.server == srv
    ensures req.verb != MethodGet ==> r == MethodNotAllowed(srv)
    ensures req.verb == MethodGet ==>
      match Catalog.GetModelDetail(reg.model(id))
      case Failure(e) => r.response == HttpError(StatusInternalServerError, e)
      case Success(d) => r.response == Json(Detail(d))
  {
    if req.verb != MethodGet then MethodNotAllowed(srv)
    else
      match Catalog.GetModelDetail(reg.model(id))
      case Failure(e) => Reply(HttpError(StatusInternalServerError, e), srv)
      case Success(d) => Reply(Json(Detail(d)), srv)
  }

  /** The path elements after the prefix, the first one unescaped once. */
  function PathParts(path: string): (parts: seq<string>)
    ensures |parts| >= 1
  {
    var raw := Split(TrimPrefix(path, ActionPrefix), '/');
    [UnescapeOrKeep(raw[0])] + raw[1..]
  }

  /** `ModelActionHandler`. With two or more path elements the id is unescaped
      a second time before dispatch on the action. */
  function ModelActionHandler(req: Request, srv: Server, reg: Registry, faults: Faults): (r: Reply)
    ensures var parts := PathParts(req.path);
      |parts| == 1 ==> r == DetailRoute(req, parts[0], srv, reg, faults)
    ensures var parts := PathParts(req.path);
      |parts| >= 2 && parts[1] !in {"enable", "download", "stats", "global"} ==> r == Reply(NotFound, srv)
    ensures var parts := PathParts(req.path);
      |parts| >= 2 && parts[1] == "download" ==> r == DownloadRoute(req, UnescapeOrKeep(parts[0]), srv, reg, faults)
    ensures var parts := PathParts(req.path);
      |parts| >= 2 && parts[1] == "stats" ==> r == ModelStatsRoute(req, UnescapeOrKeep(parts[0]), srv, reg)
    ensures var parts := PathParts(req.path);
      |parts| >= 2 && parts[1] == "enable" ==> r == EnableRoute(req, UnescapeOrKeep(parts[0]), srv, faults)
    ensures var parts := PathParts(req.path);
      |parts| >= 2 && UnescapeOrKeep(parts[0]) == "stats" && parts[1] == "global" ==> r == GlobalStatsRoute(req, srv, reg)
    ensures var parts := PathParts(req.path);
      |parts| >= 2 && parts[1] == "global" && UnescapeOrKeep(parts[0]) != "stats" ==> r == Reply(NotFound, srv)
  {
    var parts := PathParts(req.path);
    if |parts| == 1 then DetailRoute(req, parts[0], srv, reg, faults)
    else
      var id := UnescapeOrKeep(parts[0]);
      var action := parts[1];
      if id == "stats" && action == "global" then GlobalStatsRoute(req, srv, reg)
      else if action == "enable" then EnableRoute(req, id, srv, faults)
      else if action == "download" then DownloadRoute(req, id, srv, reg, faults)
      else if action == "stats" then ModelStatsRoute(req, id, srv, reg)
      else Reply(NotFound, srv)
  }

  /** The path of a per-model route. */
  function ActionPath(segment: string, action: string): string {
    ActionPrefix + segment + "/" + action
  }

  function DetailPath(segment: string): string {
    ActionPrefix + segment
  }

  /** A route path splits into its two elements, the first unescaped once. */
  lemma ActionPathParts(segment: string, action: string)
    requires '/' !in segment && '/' !in action
    ensures PathParts(ActionPath(segment, action)) == [UnescapeOrKeep(segment), action]
  {
    var path := ActionPath(segment, action);
    assert path[..|ActionPrefix|] == ActionPrefix;
    assert TrimPrefix(path, ActionPrefix) == segment + "/" + action;
    assert JoinWith([segment, action], '/') == segment + "/" + action;
    JoinThenSplit([segment, action], '/');
  }

  lemma DetailPathParts(id: string)
    requires '/' !in id && '%' !in id
    ensures PathParts(DetailPath(id)) == [id]
  {
    var path := DetailPath(id);
    assert path[..|ActionPrefix|] == ActionPrefix;
    assert TrimPrefix(path, ActionPrefix) == id;
  }

  /** The actions `activate` and `deactivate` have no route. */
  lemma ActivateIsNotFound(req: Request, srv: Server, reg: Registry, faults: Faults, id: string, action: string)
    requires '/' !in id && '%' !in id
    requires action == "activate" || action == "deactivate"
    requires req.path == ActionPath(id, action)
    ensures ModelActionHandler(req, srv, reg, faults) == Reply(NotFound, srv)
  {
    ActionPathParts(id, action);
  }

  /** An id escaped twice reaches the stats route as the id itself: every
      action route decodes the first path element two times. */
  lemma ActionIdDecodedTwice(req: Request, srv: Server, reg: Registry, faults: Faults, id: string)
    requires req.path == ActionPath(EscapeSegment(EscapeSegment(id)), "stats")
    ensures ModelActionHandler(req, srv, reg, faults) == ModelStatsRoute(req, id, srv, reg)
  {
    var once := EscapeSegment(id);
    ActionPathParts(EscapeSegment(once), "stats");
    UnescapeEscaped(once);
    UnescapeEscaped(id);
  }

  /** Downloading through the API does not record the model, so enabling a
      model that was not already in the state file still fails. */
  lemma DownloadThenEnableFails(id: string, srv: Server, reg: Registry, faults: Faults)
    requires '/' !in id && '%' !in id
    requires LoadState(srv.stateFile).Success? && id !in LoadState(srv.stateFile).value.models
    ensures var afterDownload := ModelActionHandler(Request(MethodGet, ActionPath(id, "download"), map[]), srv, reg, faults).server;
      ModelActionHandler(Request(MethodPost, ActionPath(id, "enable"), map[]), afterDownload, reg, faults).response
        == HttpError(StatusBadRequest, "model not downloaded")
  {
    ActionPathParts(id, "download");
    ActionPathParts(id, "enable");
  }

  /** With `refresh=1` the detail page answers exactly what the registry says
      now, whatever the cache holds, and leaves the server as it was. */
  lemma RefreshDetailAnswersRegistry(id: string, srv: Server, reg: Registry, faults: Faults)
    requires '/' !in id && '%' !in id
    ensures var r := ModelActionHandler(Request(MethodGet, DetailPath(id), map["refresh" := "1"]), srv, reg, faults);
      && r.server == srv
      && (Catalog.GetModelMetadata(id, reg.model(id), reg.config(id)).Success? ==>
            r.response == Json(Metadata(Catalog.GetModelMetadata(id, reg.model(id), reg.config(id)).value)))
      && (Catalog.GetModelMetadata(id, reg.model(id), reg.config(id)).Failure? ==>
            r.response == HttpError(StatusInternalServerError, Catalog.GetModelMetadata(id, reg.model(id), reg.config(id)).error))
  {
    DetailPathParts(id);
    assert Query(Request(MethodGet, DetailPath(id), map["refresh" := "1"]), "refresh") == "1";
  }

  /** A listing whose cache read fails is fetched from the registry, as if the
      cache were empty. */
  lemma ListReadErrorRefetches(pipeline: string, srv: Server, reg: Registry, faults: Faults, e: string)
    requires pipeline != "" && faults.listRead == Fail(e)
    ensures var r := ModelsHandler(Request(MethodGet, "", map["pipeline" := pipeline]), srv, reg, faults);
      match Catalog.ListModelsByType(pipeline, reg.listing)
      case Failure(err) => r == Reply(HttpError(StatusInternalServerError, err), srv)
      case Success(list) => r == Reply(Json(ModelList(list)), CacheList(srv, pipeline, list, faults.listSave))
  {
    var req := Request(MethodGet, "", map["pipeline" := pipeline]);
    assert Query(req, "pipeline") == pipeline;
    assert Query(req, "refresh") == "";
  }

  /** Opening a model's detail page after it was listed never answers from the
      cache: the listed row has no hash, so the cached read fails, and the
      fetched metadata is never saved, so the model stays listed and every
      later visit fetches again, from whatever the registry then says. */
  lemma {:induction false} DetailAfterListingRefetches(
    id: string, pipeline: string, m: Catalog.ModelInfo, t: ModelCache.Table, reg: Registry, later: Registry,
    faults: Faults, file: StateFile)
    requires '/' !in id && '%' !in id && pipeline != ""
    requires m.id == id && faults.metadataRead == Pass
    ensures var listed := ModelCache.SaveModelList(t, pipeline, [m], ModelCache.NoFault).table;
      var req := Request(MethodGet, DetailPath(id), map[]);
      var first := ModelActionHandler(req, Server(Some(listed), file), reg, faults);
      var second := ModelActionHandler(req, first.server, later, faults);
      && first == Reply(FetchedDetail(id, reg), Server(Some(listed), file))
      && second == Reply(FetchedDetail(id, later), Server(Some(listed), file))
      && m in ModelCache.GetModelList(first.server.cache.value, pipeline, Pass).value
  {
    var listed := ModelCache.SaveModelList(t, pipeline, [m], ModelCache.NoFault).table;
    var srv := Server(Some(listed), file);
    DetailPathParts(id);
    ModelCache.ListSaveClearsDetail(t, pipeline, m);
    ModelCache.SavedListIsListed(t, pipeline, [m], 0);
    assert CachedMetadata(srv, id, faults) == None;
  }
}
