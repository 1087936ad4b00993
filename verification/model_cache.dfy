/** The `model_cache` table and the functions of the memory package that read
    and write it. The table is a sequence of rows in storage order; `id` is its
    primary key, and every save is an `INSERT OR REPLACE`, which deletes the
    row holding the key and inserts a fresh one. A column the statement does
    not name takes its default: NULL, or 0 for the integer flags. JSON-encoded
    columns (`tags`, `files`, `compatible_backends`) are held decoded. */
module ModelCache {
  import opened Wrappers
  import opened Text
  import opened Catalog

  /** One row. Every save names the first five columns, so they are never
      NULL in rows this package writes. */
  datatype CacheRow = CacheRow(
    id: string,
    pipeline: string,
    lastModified: string,
    downloads: int,
    tags: seq<string>,
    sha: Option<string>,
    files: Option<seq<string>>,
    llamaCompatible: int,
    modelType: Option<string>,
    hiddenSize: Option<int>,
    nLayer: Option<int>,
    numAttentionHeads: Option<int>,
    quantized: int,
    gguf: int,
    safetensors: int,
    compatibleBackends: Option<set<string>>,
    license: Option<string>,
    modelCard: Option<string>,
    downloadSize: Option<int>)

  type Table = seq<CacheRow>

  /** The columns both cached-detail queries select first, in order. The hash
      and the file list are scanned into Go `string`s. */
  const DetailSelect: seq<string> := ["pipeline", "last_modified", "downloads", "tags", "sha", "files"]

  /** The error `Rows.Scan` reports when the selected column at `index` is NULL
      and its destination is a Go `string`: the column's index and name, then
      the conversion error. */
  function NullScanError(index: nat): string
    requires index < |DetailSelect|
  {
    "sql: Scan error on column index " + Decimal(index) + ", name \"" + DetailSelect[index] + "\": "
      + "converting NULL to string is unsupported"
  }

  /** Scanning stops at the first NULL column, and the hash comes before the
      file list. */
  function NullDetailError(row: CacheRow): string {
    if row.sha.None? then NullScanError(4) else NullScanError(5)
  }

  /** The two texts a cached-detail read can fail with on a NULL column. */
  lemma NullScanErrorTexts()
    ensures NullScanError(4) ==
      "sql: Scan error on column index 4" + ", name \"sha\": " + "converting NULL to string is unsupported"
    ensures NullScanError(5) ==
      "sql: Scan error on column index 5" + ", name \"files\": " + "converting NULL to string is unsupported"
  {
    assert Decimal(4) == "4" && DetailSelect[4] == "sha";
    assert Decimal(5) == "5" && DetailSelect[5] == "files";
    assert "sql: Scan error on column index " + "4" == "sql: Scan error on column index 4";
    assert "sql: Scan error on column index " + "5" == "sql: Scan error on column index 5";
    assert ", name \"" + "sha" + "\": " == ", name \"sha\": ";
    assert ", name \"" + "files" + "\": " == ", name \"files\": ";
  }

  predicate HasId(t: Table, id: string) {
    exists i :: 0 <= i < |t| && t[i].id == id
  }

  /** The primary-key constraint. */
  predicate UniqueIds(t: Table) {
    forall i, j :: 0 <= i < |t| && 0 <= j < |t| && t[i].id == t[j].id ==> i == j
  }

  /** `SELECT ... WHERE id=?` read with `QueryRow`: the first matching row. */
  function Lookup(t: Table, id: string): (r: Option<CacheRow>)
    ensures r.None? <==> !HasId(t, id)
    ensures r.Some? ==> r.value in t && r.value.id == id
  {
    if t == [] then None
    else if t[0].id == id then Some(t[0])
    else
      var rest := Lookup(t[1..], id);
      assert forall i :: 0 <= i < |t[1..]| ==> t[1..][i] == t[i + 1];
      assert HasId(t[1..], id) ==> HasId(t, id);
      rest
  }

  /** The rows whose key is not `id`, in their order. */
  function Without(t: Table, id: string): (r: Table)
    ensures forall x :: x in r <==> x in t && x.id != id
    ensures |r| <= |t|
  {
    if t == [] then []
    else if t[0].id == id then Without(t[1..], id)
    else [t[0]] + Without(t[1..], id)
  }

  /** `INSERT OR REPLACE`: the old row under the key goes, the new one is
      appended. */
  function Upsert(t: Table, row: CacheRow): (r: Table)
    ensures forall x :: x in r <==> x == row || (x in t && x.id != row.id)
  {
    Without(t, row.id) + [row]
  }

  lemma {:induction false} LookupWithout(t: Table, id: string, other: string)
    requires other != id
    ensures Lookup(Without(t, id), other) == Lookup(t, other)
  {
    if t != [] {
      LookupWithout(t[1..], id, other);
    }
  }

  lemma {:induction false} LookupAppend(t: Table, row: CacheRow, id: string)
    requires !HasId(t, id)
    ensures Lookup(t + [row], id) == if row.id == id then Some(row) else None
  {
    if t != [] {
      assert (t + [row])[1..] == t[1..] + [row];
      forall i | 0 <= i < |t[1..]|
        ensures t[1..][i].id != id
      {
        assert t[1..][i] == t[i + 1];
      }
      LookupAppend(t[1..], row, id);
    }
  }

  /** After an upsert the key reads the new row and every other key reads what
      it read before. */
  lemma UpsertLookup(t: Table, row: CacheRow, id: string)
    ensures Lookup(Upsert(t, row), id) == if id == row.id then Some(row) else Lookup(t, id)
  {
    var w := Without(t, row.id);
    if id == row.id {
      forall i | 0 <= i < |w|
        ensures w[i].id != id
      {
        assert w[i] in w;
      }
      LookupAppend(w, row, id);
    } else {
      LookupWithout(t, row.id, id);
      match Lookup(w, id)
      case Some(_) =>
        LookupPrefix(w, [row], id);
      case None =>
        LookupAppend(w, row, id);
    }
  }

  lemma {:induction false} LookupPrefix(t: Table, more: Table, id: string)
    requires Lookup(t, id).Some?
    ensures Lookup(t + more, id) == Lookup(t, id)
  {
    if t[0].id != id {
      assert (t + more)[1..] == t[1..] + more;
      LookupPrefix(t[1..], more, id);
    }
  }

  lemma {:induction false} WithoutUnique(t: Table, id: string)
    requires UniqueIds(t)
    ensures UniqueIds(Without(t, id))
    ensures !HasId(Without(t, id), id)
  {
    if t != [] {
      assert UniqueIds(t[1..]) by {
        forall i, j | 0 <= i < |t[1..]| && 0 <= j < |t[1..]| && t[1..][i].id == t[1..][j].id
          ensures i == j
        {
          assert t[i + 1].id == t[j + 1].id;
        }
      }
      WithoutUnique(t[1..], id);
      var rest := Without(t[1..], id);
      if t[0].id != id {
        var r := [t[0]] + rest;
        forall i | 0 <= i < |rest|
          ensures rest[i].id != t[0].id
        {
          assert rest[i] in t[1..];
          var j :| 0 <= j < |t[1..]| && t[1..][j] == rest[i];
          assert t[j + 1] == rest[i];
        }
        assert r[0] == t[0];
        assert forall k :: 0 < k < |r| ==> r[k] == rest[k - 1];
        forall i, j | 0 <= i < |r| && 0 <= j < |r| && r[i].id == r[j].id
          ensures i == j
        {
          if i > 0 && j > 0 {
            assert rest[i - 1].id == rest[j - 1].id;
          }
        }
        forall i | 0 <= i < |r|
          ensures r[i].id != id
        {
          if i > 0 {
            assert r[i] == rest[i - 1];
          }
        }
      }
    }
  }

  /** An upsert keeps the primary key unique. */
  lemma UpsertKeepsUnique(t: Table, row: CacheRow)
    requires UniqueIds(t)
    ensures UniqueIds(Upsert(t, row))
  {
    var w := Without(t, row.id);
    WithoutUnique(t, row.id);
    var r := w + [row];
    assert forall k :: 0 <= k < |w| ==> w[k].id != row.id;
    assert forall k :: 0 <= k < |w| ==> r[k] == w[k];
    assert r[|w|] == row;
  }

  // ---------------------------------------------------------------------------
  // Summary lists

  /** The row a list save writes: only the summary columns. */
  function ListRow(pipeline: string, m: ModelInfo): CacheRow {
    CacheRow(m.id, pipeline, m.lastModified, m.downloads, m.tags,
      None, None, 0, None, None, None, None, 0, 0, 0, None, None, None, None)
  }

  function UpsertAll(t: Table, pipeline: string, list: seq<ModelInfo>): (r: Table)
    decreases |list|
  {
    if list == [] then t
    else UpsertAll(Upsert(t, ListRow(pipeline, list[0])), pipeline, list[1..])
  }

  /** Where the write transaction of `SaveModelList` can fail. An `ExecFails`
      at a position past the end of the list never happens. */
  datatype TxFault =
    | NoFault
    | BeginFails(error: string)
    | PrepareFails(error: string)
    | ExecFails(at: nat, error: string)
    | CommitFails(error: string)

  predicate Aborts(f: TxFault, n: nat) {
    !f.NoFault? && (f.ExecFails? ==> f.at < n)
  }

  /** The table after a save, and the error it returned. */
  datatype Write = Write(table: Table, outcome: Outcome<string>)

  /** `SaveModelList`: one transaction upserting each summary in order; a
      failure anywhere rolls the whole list back. */
  function SaveModelList(t: Table, pipeline: string, list: seq<ModelInfo>, fault: TxFault): (w: Write)
    ensures w.outcome.Fail? <==> Aborts(fault, |list|)
    ensures w.outcome.Fail? ==> w.table == t && w.outcome.error == fault.error
    ensures w.outcome.Pass? ==> w.table == UpsertAll(t, pipeline, list)
  {
    if Aborts(fault, |list|) then Write(t, Fail(fault.error))
    else Write(UpsertAll(t, pipeline, list), Pass)
  }

  /** The summary a list read builds from a row. */
  function InfoOfRow(row: CacheRow): ModelInfo {
    ModelInfo(row.id, row.lastModified, row.downloads, row.tags)
  }

  /** The summaries of the rows filed under `pipeline`, in storage order. */
  function Listed(t: Table, pipeline: string): (r: seq<ModelInfo>)
    ensures |r| <= |t|
    ensures forall m :: m in r <==> exists row :: row in t && row.pipeline == pipeline && m == InfoOfRow(row)
  {
    if t == [] then []
    else
      var rest := Listed(t[1..], pipeline);
      assert forall row :: row in t <==> row == t[0] || row in t[1..];
      if t[0].pipeline == pipeline then [InfoOfRow(t[0])] + rest else rest
  }

  /** `GetModelList`. `read` is the outcome of running the query and
      iterating its rows (`Query`, `Scan`, `rows.Err`); any of those errors is
      returned instead of a list. */
  function GetModelList(t: Table, pipeline: string, read: Outcome<string>): (r: Result<seq<ModelInfo>, string>)
    ensures read.Fail? ==> r == Failure(read.error)
    ensures read.Pass? ==> r.Success? && |r.value| <= |t|
    ensures read.Pass? ==>
      forall m :: m in r.value <==> exists row :: row in t && row.pipeline == pipeline && m == InfoOfRow(row)
  {
    match read
    case Fail(e) => Failure(e)
    case Pass => Success(Listed(t, pipeline))
  }

  lemma {:induction false} UpsertAllKeeps(t: Table, pipeline: string, list: seq<ModelInfo>, row: CacheRow)
    requires row in t
    requires forall m :: m in list ==> m.id != row.id
    ensures row in UpsertAll(t, pipeline, list)
    decreases |list|
  {
    if list != [] {
      assert list[0] in list;
      assert forall m :: m in list[1..] ==> m in list;
      UpsertAllKeeps(Upsert(t, ListRow(pipeline, list[0])), pipeline, list[1..], row);
    }
  }

  lemma {:induction false} UpsertAllLast(t: Table, pipeline: string, list: seq<ModelInfo>, k: nat)
    requires k < |list|
    requires forall j :: k < j < |list| ==> list[j].id != list[k].id
    ensures ListRow(pipeline, list[k]) in UpsertAll(t, pipeline, list)
    decreases |list|
  {
    var t' := Upsert(t, ListRow(pipeline, list[0]));
    if k == 0 {
      forall m | m in list[1..]
        ensures m.id != list[0].id
      {
        var j :| 0 <= j < |list[1..]| && list[1..][j] == m;
        assert list[j + 1] == m;
      }
      UpsertAllKeeps(t', pipeline, list[1..], ListRow(pipeline, list[0]));
    } else {
      UpsertAllLast(t', pipeline, list[1..], k - 1);
    }
  }

  /** A saved list reads back: every summary whose id does not occur again
      later in the list is listed under the pipeline. */
  lemma SavedListIsListed(t: Table, pipeline: string, list: seq<ModelInfo>, k: nat)
    requires k < |list|
    requires forall j :: k < j < |list| ==> list[j].id != list[k].id
    ensures list[k] in GetModelList(SaveModelList(t, pipeline, list, NoFault).table, pipeline, Pass).value
  {
    UpsertAllLast(t, pipeline, list, k);
    assert InfoOfRow(ListRow(pipeline, list[k])) == list[k];
  }

  lemma {:induction false} UpsertAllOnlyAdds(t: Table, pipeline: string, list: seq<ModelInfo>, row: CacheRow)
    requires row in UpsertAll(t, pipeline, list)
    ensures row in t || exists m :: m in list && row == ListRow(pipeline, m)
    decreases |list|
  {
    if list != [] {
      var t' := Upsert(t, ListRow(pipeline, list[0]));
      UpsertAllOnlyAdds(t', pipeline, list[1..], row);
      if row !in t' {
        var m :| m in list[1..] && row == ListRow(pipeline, m);
        assert m in list;
      } else if row == ListRow(pipeline, list[0]) {
        assert list[0] in list;
      }
    }
  }

  lemma {:induction false} UpsertAllRemoves(t: Table, pipeline: string, list: seq<ModelInfo>, row: CacheRow)
    requires row in UpsertAll(t, pipeline, list)
    requires exists m :: m in list && m.id == row.id
    ensures row.pipeline == pipeline
    decreases |list|
  {
    var t' := Upsert(t, ListRow(pipeline, list[0]));
    if list[0].id == row.id {
      UpsertAllOnlyAdds(t', pipeline, list[1..], row);
      if row !in t' {
        var m :| m in list[1..] && row == ListRow(pipeline, m);
      }
    } else {
      var m :| m in list && m.id == row.id;
      assert m in list[1..] by {
        var i :| 0 <= i < |list| && list[i] == m;
        assert i != 0;
        assert list[1..][i - 1] == m;
      }
      UpsertAllRemoves(t', pipeline, list[1..], row);
    }
  }

  /** A model saved in a list for one pipeline leaves every other pipeline's
      listing: the key is shared across pipelines. */
  lemma ListSaveRehomes(t: Table, pipeline: string, other: string, list: seq<ModelInfo>, m: ModelInfo)
    requires other != pipeline
    requires m in list
    ensures forall x :: x in GetModelList(SaveModelList(t, pipeline, list, NoFault).table, other, Pass).value ==> x.id != m.id
  {
    var t' := SaveModelList(t, pipeline, list, NoFault).table;
    forall x | x in GetModelList(t', other, Pass).value
      ensures x.id != m.id
    {
      var row :| row in t' && row.pipeline == other && x == InfoOfRow(row);
      if row.id == m.id {
        UpsertAllRemoves(t, pipeline, list, row);
      }
    }
  }

  // ---------------------------------------------------------------------------
  // Single models

  /** `boolToInt`. */
  function BoolToInt(b: bool): (n: int)
    ensures n == 0 || n == 1
    ensures (n == 1) == b
  {
    if b then 1 else 0
  }

  function DetailRow(pipeline: string, d: ModelDetail): CacheRow {
    CacheRow(d.info.id, pipeline, d.info.lastModified, d.info.downloads, d.info.tags,
      Some(d.sha), Some(d.files), 0, None, None, None, None, 0, 0, 0, None, None, None, None)
  }

  /** `SaveModelDetail`: one upsert of the summary, hash and file list;
      `exec` is the outcome of the statement. */
  function SaveModelDetail(t: Table, pipeline: string, d: ModelDetail, exec: Outcome<string>): (w: Write)
    ensures w.outcome == exec
    ensures exec.Fail? ==> w.table == t
    ensures exec.Pass? ==> Lookup(w.table, d.info.id) == Some(DetailRow(pipeline, d))
    ensures exec.Pass? ==> forall id :: id != d.info.id ==> Lookup(w.table, id) == Lookup(t, id)
  {
    match exec
    case Fail(e) => Write(t, exec)
    case Pass =>
      var t' := Upsert(t, DetailRow(pipeline, d));
      UpsertLookup(t, DetailRow(pipeline, d), d.info.id);
      assert forall id :: id != d.info.id ==> Lookup(t', id) == Lookup(t, id) by {
        forall id | id != d.info.id
          ensures Lookup(t', id) == Lookup(t, id)
        {
          UpsertLookup(t, DetailRow(pipeline, d), id);
        }
      }
      Write(t', Pass)
  }

  /** The row holds no hash or no file list, which a `string` cannot scan. */
  predicate HasNullDetail(row: CacheRow) {
    row.sha.None? || row.files.None?
  }

  /** `GetModelDetail` on the cache. `read` is the outcome of the query itself
      (a closed or busy database); when it runs, no row with the key is a
      miss, and a row with no hash or file list (a list save wrote it) is a
      scan error. */
  function GetModelDetail(t: Table, id: string, read: Outcome<string>): (r: Result<Option<ModelDetail>, string>)
    ensures read.Fail? ==> r == Failure(read.error)
    ensures read.Pass? ==> (r == Success(None) <==> !HasId(t, id))
    ensures read.Pass? && HasId(t, id) && Lookup(t, id).value.sha.None? ==> r == Failure(NullScanError(4))
    ensures read.Pass? && HasId(t, id) && Lookup(t, id).value.sha.Some? && Lookup(t, id).value.files.None? ==>
      r == Failure(NullScanError(5))
    ensures read.Pass? ==> (r.Failure? <==> HasId(t, id) && HasNullDetail(Lookup(t, id).value))
    ensures r.Success? && r.value.Some? ==>
      && r.value.value.info.id == id
      && Some(r.value.value.sha) == Lookup(t, id).value.sha
      && Some(r.value.value.files) == Lookup(t, id).value.files
      && r.value.value.info.lastModified == Lookup(t, id).value.lastModified
      && r.value.value.info.downloads == Lookup(t, id).value.downloads
      && r.value.value.info.tags == Lookup(t, id).value.tags
  {
    if read.Fail? then Failure(read.error)
    else
      match Lookup(t, id)
      case None => Success(None)
      case Some(row) =>
        if HasNullDetail(row) then Failure(NullDetailError(row))
        else Success(Some(ModelDetail(ModelInfo(id, row.lastModified, row.downloads, row.tags), row.sha.value, row.files.value)))
  }

  /** A saved detail reads back as it was saved. */
  lemma DetailRoundTrip(t: Table, pipeline: string, d: ModelDetail)
    ensures GetModelDetail(SaveModelDetail(t, pipeline, d, Pass).table, d.info.id, Pass) == Success(Some(d))
  {
  }

  function MetadataRow(pipeline: string, md: ModelMetadata): CacheRow {
    var d := md.detail;
    CacheRow(d.info.id, pipeline, d.info.lastModified, d.info.downloads, d.info.tags,
      Some(d.sha), Some(d.files),
      BoolToInt(md.llamaCompatible), Some(md.modelType), Some(md.hiddenSize), Some(md.nLayer),
      Some(md.numAttentionHeads), BoolToInt(md.quantized), BoolToInt(md.gguf), BoolToInt(md.safetensors),
      Some(md.compatibleBackends), Some(md.license), Some(md.modelCard), Some(md.downloadSize))
  }

  /** The columns the metadata insert names, in statement order. */
  const MetadataColumns: seq<string> := [
    "id", "pipeline", "last_modified", "downloads", "tags", "sha", "files",
    "llama_compatible", "model_type", "hidden_size", "n_layer", "num_attention_heads",
    "quantized", "gguf", "safetensors", "compatible_backends", "license", "model_card", "download_size"]

  /** The number of `?` placeholders in the `VALUES` list of the metadata
      insert as the package writes it: one short of the column list. */
  const MetadataPlaceholders: nat := 18

  /** SQLite's message when an insert's value list and column list differ in
      length. */
  function ArityError(values: nat, columns: nat): string {
    Decimal(values) + " values for " + Decimal(columns) + " columns"
  }

  /** `INSERT OR REPLACE INTO model_cache(<MetadataColumns>) VALUES(...)` with
      `placeholders` markers. SQLite refuses to prepare an insert whose value
      list does not match its column list, so nothing is written; a statement
      that prepares runs with outcome `exec` and writes every column, flags
      as 0/1. */
  function InsertMetadata(t: Table, pipeline: string, md: ModelMetadata, placeholders: nat, exec: Outcome<string>): (w: Write)
    ensures placeholders != |MetadataColumns| ==> w == Write(t, Fail(ArityError(placeholders, |MetadataColumns|)))
    ensures w.outcome.Pass? <==> placeholders == |MetadataColumns| && exec.Pass?
    ensures w.outcome.Fail? ==> w.table == t
    ensures placeholders == |MetadataColumns| ==> w.outcome == exec
    ensures w.outcome.Pass? ==> Lookup(w.table, md.detail.info.id) == Some(MetadataRow(pipeline, md))
    ensures w.outcome.Pass? ==> forall id :: id != md.detail.info.id ==> Lookup(w.table, id) == Lookup(t, id)
  {
    if placeholders != |MetadataColumns| then Write(t, Fail(ArityError(placeholders, |MetadataColumns|)))
    else
      match exec
      case Fail(e) => Write(t, exec)
      case Pass =>
        var row := MetadataRow(pipeline, md);
        var t' := Upsert(t, row);
        UpsertLookup(t, row, md.detail.info.id);
        assert forall id :: id != md.detail.info.id ==> Lookup(t', id) == Lookup(t, id) by {
          forall id | id != md.detail.info.id
            ensures Lookup(t', id) == Lookup(t, id)
          {
            UpsertLookup(t, row, id);
          }
        }
        Write(t', Pass)
  }

  /** `SaveModelMetadata` as written: its insert names 19 columns but has 18
      placeholders, so every call fails before anything is written. */
  function SaveModelMetadata(t: Table, pipeline: string, md: ModelMetadata): (w: Write)
    ensures w.table == t
    ensures w.outcome == Fail(ArityError(18, 19))
  {
    InsertMetadata(t, pipeline, md, MetadataPlaceholders, Pass)
  }

  /** `SaveModelMetadata` with one placeholder per column, as evidently
      intended: one upsert writing every column. */
  function SaveModelMetadataFixed(t: Table, pipeline: string, md: ModelMetadata, exec: Outcome<string>): (w: Write)
    ensures w.outcome == exec
    ensures exec.Fail? ==> w.table == t
    ensures exec.Pass? ==> Lookup(w.table, md.detail.info.id) == Some(MetadataRow(pipeline, md))
    ensures exec.Pass? ==> forall id :: id != md.detail.info.id ==> Lookup(w.table, id) == Lookup(t, id)
  {
    InsertMetadata(t, pipeline, md, |MetadataColumns|, exec)
  }

  /** `GetModelMetadata` on the cache. NULL text and number columns read as
      empty and zero; NULL hash or file list is a scan error. */
  function GetModelMetadata(t: Table, id: string, read: Outcome<string>): (r: Result<Option<ModelMetadata>, string>)
    ensures read.Fail? ==> r == Failure(read.error)
    ensures r.Success? <==> GetModelDetail(t, id, read).Success?
    ensures r.Failure? ==> GetModelDetail(t, id, read) == Failure(r.error)
    ensures r == Success(None) <==> GetModelDetail(t, id, read) == Success(None)
    ensures r.Success? && r.value.Some? ==> GetModelDetail(t, id, read) == Success(Some(r.value.value.detail))
    ensures r.Success? && r.value.Some? ==>
      && (r.value.value.llamaCompatible <==> Lookup(t, id).value.llamaCompatible == 1)
      && (r.value.value.quantized <==> Lookup(t, id).value.quantized == 1)
      && (r.value.value.gguf <==> Lookup(t, id).value.gguf == 1)
      && (r.value.value.safetensors <==> Lookup(t, id).value.safetensors == 1)
      && r.value.value.license == Lookup(t, id).value.license.GetOr("")
      && r.value.value.downloadSize == Lookup(t, id).value.downloadSize.GetOr(0)
    ensures r.Success? && r.value.Some? ==>
      && r.value.value.modelType == Lookup(t, id).value.modelType.GetOr("")
      && r.value.value.hiddenSize == Lookup(t, id).value.hiddenSize.GetOr(0)
      && r.value.value.nLayer == Lookup(t, id).value.nLayer.GetOr(0)
      && r.value.value.numAttentionHeads == Lookup(t, id).value.numAttentionHeads.GetOr(0)
      && r.value.value.compatibleBackends == Lookup(t, id).value.compatibleBackends.GetOr({})
      && r.value.value.modelCard == Lookup(t, id).value.modelCard.GetOr("")
  {
    if read.Fail? then Failure(read.error)
    else
    match Lookup(t, id)
    case None => Success(None)
    case Some(row) =>
      if HasNullDetail(row) then Failure(NullDetailError(row))
      else
        var d := ModelDetail(ModelInfo(id, row.lastModified, row.downloads, row.tags), row.sha.value, row.files.value);
        Success(Some(ModelMetadata(d,
          row.llamaCompatible == 1,
          row.modelType.GetOr(""),
          row.hiddenSize.GetOr(0),
          row.nLayer.GetOr(0),
          row.numAttentionHeads.GetOr(0),
          row.quantized == 1,
          row.gguf == 1,
          row.safetensors == 1,
          row.compatibleBackends.GetOr({}),
          row.license.GetOr(""),
          row.modelCard.GetOr(""),
          row.downloadSize.GetOr(0))))
  }

  /** Metadata saved by the corrected insert reads back field for field. */
  lemma MetadataRoundTrip(t: Table, pipeline: string, md: ModelMetadata)
    ensures GetModelMetadata(SaveModelMetadataFixed(t, pipeline, md, Pass).table, md.detail.info.id, Pass) == Success(Some(md))
  {
  }

  /** As written, the round trip fails: metadata saved into an empty cache is
      not there to read back, and the save reports the arity error. */
  lemma MetadataRoundTripFailsAsWritten(pipeline: string, md: ModelMetadata)
    ensures SaveModelMetadata([], pipeline, md).outcome == Fail("18 values for 19 columns")
    ensures GetModelMetadata(SaveModelMetadata([], pipeline, md).table, md.detail.info.id, Pass) == Success(None)
  {
    assert Decimal(1) == "1";
    assert Decimal(18) == Decimal(1) + "8" == "18";
    assert Decimal(19) == Decimal(1) + "9" == "19";
    assert ArityError(18, 19) == "18" + " values for " + "19" + " columns";
    assert "18" + " values for " + "19" + " columns" == "18 values for 19 columns";
  }

  /** A list save over a cached detail replaces the row with one that has no
      hash or file list, so the next detail read fails instead of missing. */
  lemma ListSaveClearsDetail(t: Table, pipeline: string, m: ModelInfo)
    ensures GetModelDetail(SaveModelList(t, pipeline, [m], NoFault).table, m.id, Pass) == Failure(NullScanError(4))
    ensures GetModelMetadata(SaveModelList(t, pipeline, [m], NoFault).table, m.id, Pass) == Failure(NullScanError(4))
  {
    UpsertLookup(t, ListRow(pipeline, m), m.id);
    assert UpsertAll(t, pipeline, [m]) == UpsertAll(Upsert(t, ListRow(pipeline, m)), pipeline, []);
  }
}
