/** The registry-facing half of the models package: the catalog records, the
    decoding of one model's detail, the metadata enrichment that classifies a
    model's artifact files and reads its configuration, and the global model
    count. Every HTTP exchange is an input: the decoded body of
    `GET /api/models/<id>` (`ApiModel`), of `config.json` (`ModelConfig`), or the
    error text the Go code would return instead. */
module Catalog {
  import opened Wrappers
  import opened Text

  /** Summary of a model as a listing returns it. */
  datatype ModelInfo = ModelInfo(id: string, lastModified: string, downloads: int, tags: seq<string>)

  /** A model's summary plus its revision hash and artifact file names. */
  datatype ModelDetail = ModelDetail(info: ModelInfo, sha: string, files: seq<string>)

  /** A detail enriched with configuration values and flags derived from the
      file list. The backend list is emitted from a Go map, so only its set of
      members is determined. */
  datatype ModelMetadata = ModelMetadata(
    detail: ModelDetail,
    llamaCompatible: bool,
    modelType: string,
    hiddenSize: int,
    nLayer: int,
    numAttentionHeads: int,
    quantized: bool,
    gguf: bool,
    safetensors: bool,
    compatibleBackends: set<string>,
    license: string,
    modelCard: string,
    downloadSize: int)

  /** One artifact of a model revision (`siblings[i]`). */
  datatype Sibling = Sibling(rfilename: string, size: int)

  /** The decoded body of `GET /api/models/<id>`. */
  datatype ApiModel = ApiModel(
    id: string,
    lastModified: string,
    downloads: int,
    tags: seq<string>,
    sha: string,
    license: string,
    siblings: seq<Sibling>)

  /** The decoded body of `<id>/raw/main/config.json`. */
  datatype ModelConfig = ModelConfig(
    architectures: seq<string>,
    modelType: string,
    hiddenSize: int,
    nLayer: int,
    numAttentionHeads: int)

  /** The outcome of one remote call: the decoded value, or the error text
      (a transport error, the body of a non-200 reply, or a decoding error). */
  type Remote<T> = Result<T, string>

  function FileNames(siblings: seq<Sibling>): (names: seq<string>)
    ensures |names| == |siblings|
    ensures forall i :: 0 <= i < |siblings| ==> names[i] == siblings[i].rfilename
  {
    seq(|siblings|, i requires 0 <= i < |siblings| => siblings[i].rfilename)
  }

  function InfoOf(api: ApiModel): ModelInfo {
    ModelInfo(api.id, api.lastModified, api.downloads, api.tags)
  }

  /** The listing endpoint; the pipeline tag is appended unescaped. */
  const ListEndpoint: string := "https://huggingface.co/api/models?pipeline_tag="

  function ListUrl(pipeline: string): (url: string)
    ensures HasPrefix(url, ListEndpoint) && url[|ListEndpoint|..] == pipeline
  {
    ListEndpoint + pipeline
  }

  /** `ListModelsByType(pipeline)`. `get` answers a listing URL with the decoded
      array or the error the call returns; each entry's `id` becomes the
      summary's id and the other fields are copied as they are. */
  function ListModelsByType(pipeline: string, get: string -> Remote<seq<ModelInfo>>): (r: Remote<seq<ModelInfo>>)
    ensures exists url :: HasPrefix(url, ListEndpoint) && url[|ListEndpoint|..] == pipeline && r == get(url)
  {
    var url := ListUrl(pipeline);
    get(url)
  }

  /** Distinct pipelines query distinct URLs, so a listing answers for the
      pipeline it was asked about and no other. */
  lemma ListUrlDistinct(p: string, q: string)
    requires ListUrl(p) == ListUrl(q)
    ensures p == q
  {
    assert p == ListUrl(p)[|ListEndpoint|..];
  }

  /** `GetModelDetail`: the summary, the revision hash and the sibling file
      names in the order the registry lists them. */
  function GetModelDetail(api: Remote<ApiModel>): (r: Remote<ModelDetail>)
    ensures api.Failure? ==> r == Failure(api.error)
    ensures api.Success? ==> r.Success?
    ensures r.Success? ==> r.value.info.id == api.value.id && r.value.sha == api.value.sha
    ensures r.Success? ==>
      && r.value.info.lastModified == api.value.lastModified
      && r.value.info.downloads == api.value.downloads
      && r.value.info.tags == api.value.tags
    ensures r.Success? ==> |r.value.files| == |api.value.siblings|
    ensures r.Success? ==> forall i :: 0 <= i < |api.value.siblings| ==> r.value.files[i] == api.value.siblings[i].rfilename
  {
    match api
    case Failure(e) => Failure(e)
    case Success(m) => Success(ModelDetail(InfoOf(m), m.sha, FileNames(m.siblings)))
  }

  // ---------------------------------------------------------------------------
  // File classification

  /** The first rule a lower-cased file name matches. */
  datatype FileKind = GgufWeights | GptqWeights | SafetensorsWeights | OnnxGraph | OtherFile

  /** Rules are tried in order and only the first match applies, so a GPTQ file
      with a `.gguf` suffix counts as GGUF and not as quantized. */
  function Classify(rfilename: string): (k: FileKind)
    ensures var n := ToLower(rfilename);
      && (k == GgufWeights <==> HasSuffix(n, ".gguf"))
      && (k == GptqWeights <==> !HasSuffix(n, ".gguf") && Contains(n, "gptq"))
      && (k == SafetensorsWeights <==>
            !HasSuffix(n, ".gguf") && !Contains(n, "gptq") && HasSuffix(n, ".safetensors"))
      && (k == OnnxGraph <==>
            !HasSuffix(n, ".gguf") && !Contains(n, "gptq") && !HasSuffix(n, ".safetensors")
            && HasSuffix(n, ".onnx"))
  {
    var n := ToLower(rfilename);
    if HasSuffix(n, ".gguf") then GgufWeights
    else if Contains(n, "gptq") then GptqWeights
    else if HasSuffix(n, ".safetensors") then SafetensorsWeights
    else if HasSuffix(n, ".onnx") then OnnxGraph
    else OtherFile
  }

  /** The backend a file kind contributes, if any; safetensors adds none. */
  function BackendTag(k: FileKind): Option<string> {
    match k
    case GgufWeights => Some("gguf")
    case GptqWeights => Some("gptq")
    case OnnxGraph => Some("onnx")
    case SafetensorsWeights => None
    case OtherFile => None
  }

  /** The backend every model is compatible with. */
  const GenericBackend: string := "transformers"

  predicate HasKind(siblings: seq<Sibling>, k: FileKind) {
    exists i :: 0 <= i < |siblings| && Classify(siblings[i].rfilename) == k
  }

  /** `b` is the backend tag of some sibling. */
  predicate AddsBackend(siblings: seq<Sibling>, b: string) {
    exists i :: 0 <= i < |siblings| && BackendTag(Classify(siblings[i].rfilename)) == Some(b)
  }

  /** Total of the reported sizes, summed from the first file. */
  function SumSizes(siblings: seq<Sibling>): int {
    if siblings == [] then 0 else siblings[0].size + SumSizes(siblings[1..])
  }

  lemma {:induction false} SumSizesSnoc(siblings: seq<Sibling>)
    requires siblings != []
    ensures SumSizes(siblings) == SumSizes(siblings[..|siblings| - 1]) + siblings[|siblings| - 1].size
    decreases |siblings|
  {
    if |siblings| > 1 {
      SumSizesSnoc(siblings[1..]);
      assert siblings[1..][..|siblings[1..]| - 1] == siblings[..|siblings| - 1][1..];
    }
  }

  lemma HasKindSnoc(siblings: seq<Sibling>)
    requires siblings != []
    ensures forall f :: HasKind(siblings, f) <==>
      HasKind(siblings[..|siblings| - 1], f) || Classify(siblings[|siblings| - 1].rfilename) == f
  {
    var init := siblings[..|siblings| - 1];
    forall f ensures HasKind(siblings, f) <==> HasKind(init, f) || Classify(siblings[|siblings| - 1].rfilename) == f {
      if HasKind(init, f) {
        var i :| 0 <= i < |init| && Classify(init[i].rfilename) == f;
        assert siblings[i] == init[i];
      }
    }
  }

  lemma AddsBackendSnoc(siblings: seq<Sibling>)
    requires siblings != []
    ensures forall b :: AddsBackend(siblings, b) <==>
      AddsBackend(siblings[..|siblings| - 1], b) || BackendTag(Classify(siblings[|siblings| - 1].rfilename)) == Some(b)
  {
    var init := siblings[..|siblings| - 1];
    forall b ensures AddsBackend(siblings, b) <==> AddsBackend(init, b) || BackendTag(Classify(siblings[|siblings| - 1].rfilename)) == Some(b) {
      if AddsBackend(init, b) {
        var i :| 0 <= i < |init| && BackendTag(Classify(init[i].rfilename)) == Some(b);
        assert siblings[i] == init[i];
      }
    }
  }

  /** What one pass over the siblings accumulates. */
  datatype FileScan = FileScan(
    files: seq<string>,
    total: int,
    gguf: bool,
    quantized: bool,
    safetensors: bool,
    backends: set<string>)

  /** `r` is what the loop has accumulated after the files of `siblings`. */
  ghost predicate ScanOf(siblings: seq<Sibling>, r: FileScan) {
    && r.files == FileNames(siblings)
    && r.total == SumSizes(siblings)
    && (r.gguf <==> HasKind(siblings, GgufWeights))
    && (r.quantized <==> HasKind(siblings, GptqWeights))
    && (r.safetensors <==> HasKind(siblings, SafetensorsWeights))
    && (forall b :: b in r.backends <==> b == GenericBackend || AddsBackend(siblings, b))
  }

  /** One iteration of the loop: fold the last file into the scan of the
      files before it. */
  function Extend(siblings: seq<Sibling>, prev: FileScan): (r: FileScan)
    requires siblings != []
    requires ScanOf(siblings[..|siblings| - 1], prev)
    ensures ScanOf(siblings, r)
  {
    var last := siblings[|siblings| - 1];
    var k := Classify(last.rfilename);
    var added := match BackendTag(k) case Some(b) => {b} case None => {};
    SumSizesSnoc(siblings);
    HasKindSnoc(siblings);
    AddsBackendSnoc(siblings);
    FileScan(
      prev.files + [last.rfilename],
      prev.total + last.size,
      prev.gguf || k == GgufWeights,
      prev.quantized || k == GptqWeights,
      prev.safetensors || k == SafetensorsWeights,
      prev.backends + added)
  }

  /** The loop over `siblings` in `GetModelMetadata`, file by file in registry
      order. Each flag is set exactly when some file is of its kind, and the
      backend set is the generic backend plus the tag of every matched file. */
  function ScanSiblings(siblings: seq<Sibling>): (r: FileScan)
    ensures r.files == FileNames(siblings)
    ensures r.total == SumSizes(siblings)
    ensures r.gguf <==> HasKind(siblings, GgufWeights)
    ensures r.quantized <==> HasKind(siblings, GptqWeights)
    ensures r.safetensors <==> HasKind(siblings, SafetensorsWeights)
    ensures forall b :: b in r.backends <==> b == GenericBackend || AddsBackend(siblings, b)
    decreases |siblings|
  {
    if siblings == [] then FileScan([], 0, false, false, false, {GenericBackend})
    else Extend(siblings, ScanSiblings(siblings[..|siblings| - 1]))
  }

  /** Case-insensitive test for the llama family keyword. */
  predicate MentionsLlama(s: string) {
    Contains(ToLower(s), "llama")
  }

  /** The architecture loop with its early `break`: true at the first match. */
  function AnyArchitectureLlama(architectures: seq<string>): (found: bool)
    ensures found <==> exists i :: 0 <= i < |architectures| && MentionsLlama(architectures[i])
  {
    if architectures == [] then false
    else if MentionsLlama(architectures[0]) then true
    else
      var found := AnyArchitectureLlama(architectures[1..]);
      assert forall i :: 1 <= i < |architectures| ==> architectures[i] == architectures[1..][i - 1];
      found
  }

  /** The enrichment step of `GetModelMetadata`, once both documents are in
      hand. `id` is the id that was requested, which the llama test reads;
      the stored id is the one the registry returned. */
  function Enrich(id: string, api: ApiModel, config: Remote<ModelConfig>): (md: ModelMetadata)
    ensures md.detail == ModelDetail(InfoOf(api), api.sha, FileNames(api.siblings))
    ensures md.license == api.license && md.modelCard == ""
    ensures md.downloadSize == SumSizes(api.siblings)
    ensures md.gguf <==> HasKind(api.siblings, GgufWeights)
    ensures md.quantized <==> HasKind(api.siblings, GptqWeights)
    ensures md.safetensors <==> HasKind(api.siblings, SafetensorsWeights)
    ensures forall b :: b in md.compatibleBackends <==> b == GenericBackend || AddsBackend(api.siblings, b)
    ensures md.llamaCompatible <==>
      MentionsLlama(id)
      || (config.Success? && exists i :: 0 <= i < |config.value.architectures| && MentionsLlama(config.value.architectures[i]))
    ensures config.Failure? ==>
      md.modelType == "" && md.hiddenSize == 0 && md.nLayer == 0 && md.numAttentionHeads == 0
    ensures config.Success? ==>
      && md.modelType == config.value.modelType
      && md.hiddenSize == config.value.hiddenSize
      && md.nLayer == config.value.nLayer
      && md.numAttentionHeads == config.value.numAttentionHeads
  {
    var scan := ScanSiblings(api.siblings);
    var fromConfig := config.Success? && AnyArchitectureLlama(config.value.architectures);
    var base := ModelMetadata(
      ModelDetail(InfoOf(api), api.sha, scan.files),
      fromConfig || MentionsLlama(id),
      "", 0, 0, 0,
      scan.quantized, scan.gguf, scan.safetensors, scan.backends,
      api.license, "", scan.total);
    match config
    case Failure(_) => base
    case Success(c) =>
      base.(modelType := c.modelType, hiddenSize := c.hiddenSize, nLayer := c.nLayer,
            numAttentionHeads := c.numAttentionHeads)
  }

  /** `GetModelMetadata`: a failed detail fetch is the error; a failed config
      fetch is only logged and leaves the configuration fields zero. */
  function GetModelMetadata(id: string, api: Remote<ApiModel>, config: Remote<ModelConfig>): (r: Remote<ModelMetadata>)
    ensures api.Failure? <==> r.Failure?
    ensures api.Failure? ==> r.error == api.error
    ensures api.Success? ==> r.value == Enrich(id, api.value, config)
  {
    match api
    case Failure(e) => Failure(e)
    case Success(m) => Success(Enrich(id, m, config))
  }

  /** The enriched metadata carries exactly the detail `GetModelDetail` builds
      from the same registry answer, and both fail together. */
  lemma MetadataExtendsDetail(id: string, api: Remote<ApiModel>, config: Remote<ModelConfig>)
    ensures GetModelMetadata(id, api, config).Failure? <==> GetModelDetail(api).Failure?
    ensures GetModelMetadata(id, api, config).Success? ==>
      GetModelMetadata(id, api, config).value.detail == GetModelDetail(api).value
  {
  }

  /** The first rule wins: a GPTQ file shipped as GGUF is not flagged quantized. */
  lemma GgufTakesPrecedence()
    ensures Classify("GPTQ.gguf") == GgufWeights
  {
    assert ToLower("GPTQ.gguf") == "gptq.gguf";
  }

  /** Enrichment with no files, no config and a plain id: only the generic
      backend, no flags, zero size. */
  lemma {:induction false} EnrichEmpty(id: string, api: ApiModel, e: string)
    requires api.siblings == [] && !MentionsLlama(id)
    ensures var md := Enrich(id, api, Failure(e));
      md.compatibleBackends == {GenericBackend} && !md.gguf && !md.quantized && !md.safetensors
      && !md.llamaCompatible && md.downloadSize == 0
  {
    var md := Enrich(id, api, Failure(e));
    assert forall b :: !AddsBackend(api.siblings, b);
    assert forall b :: b in md.compatibleBackends <==> b == GenericBackend;
  }

  // ---------------------------------------------------------------------------
  // Global statistics

  /** The reply to `GET /api/models?limit=1`: status, body and the value of the
      `X-Total-Count` header ("" when absent, as `Header.Get` returns). */
  datatype StatsResponse = StatsResponse(status: int, body: string, totalCount: string)

  const StatusOK: int := 200

  /** `GetGlobalStats`. The count is read with `Sscanf("%d")` whose error is
      ignored, so a header that does not scan yields zero models. */
  function GetGlobalStats(resp: Remote<StatsResponse>): (r: Remote<int>)
    ensures resp.Failure? ==> r == Failure(resp.error)
    ensures resp.Success? && resp.value.status != StatusOK ==> r == Failure(resp.value.body)
    ensures resp.Success? && resp.value.status == StatusOK && resp.value.totalCount == "" ==>
      r == Failure("total count header missing")
    ensures r.Success? ==> resp.Success? && resp.value.status == StatusOK && resp.value.totalCount != ""
    ensures r.Success? ==> Int64Min <= r.value <= Int64Max
  {
    match resp
    case Failure(e) => Failure(e)
    case Success(rsp) =>
      if rsp.status != StatusOK then Failure(rsp.body)
      else if rsp.totalCount == "" then Failure("total count header missing")
      else Success(ScanInt(rsp.totalCount).GetOr(0))
  }

  /** A well-formed count header is read back exactly. */
  lemma GlobalStatsReadsCount(n: nat, body: string)
    requires n <= Int64Max
    ensures GetGlobalStats(Success(StatsResponse(StatusOK, body, Decimal(n)))) == Success(n)
  {
    ScanDecimal(n);
  }

  /** A header that does not scan as a number is reported as zero models, not
      as an error. */
  lemma GlobalStatsGarbageIsZero(body: string)
    ensures GetGlobalStats(Success(StatsResponse(StatusOK, body, "many"))) == Success(0)
  {
    assert SkipBlanks("many") == "many";
    assert LeadingDigits("many") == 0;
  }
}
