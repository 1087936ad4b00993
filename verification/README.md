# Model management and project memory of local-ai, in Dafny

This project models the model-management subsystem of the local-ai assistant
and its small project/memory store, as pure functions over immutable values.

- **Catalog** (`catalog.dfy`, from `src/models/models.go`). Covers the registry
  side of the `models` package:
  - listing a pipeline;
  - a model's detail;
  - the metadata enrichment of `GetModelMetadata`, which classifies files by
    the first matching rule, sums sizes, collects compatible backends and
    detects llama;
  - the global model count read from the `X-Total-Count` header.
- **Download** (`download.dfy`, from `src/models/models.go`). Covers
  `DownloadModelWithProgress`:
  - the plan of file transfers (`models/<id>/<base name>`);
  - progress reported only after each completed file;
  - stopping at the first failure;
  - the revision hash on success.
- **Lifecycle** (`lifecycle.dfy`, from `src/models/models.go`). Covers:
  - the state file `models/state.json` (`LoadState`, `SaveState`);
  - the two records of the active model: the state's `active` field and the
    per-record `active` flag;
  - `ActivateModel`.
- **ModelCache** (`model_cache.dfy`, from `src/memory/models.go`). Models the
  `model_cache` table, keyed by model id alone and written with
  `INSERT OR REPLACE`:
  - list, detail and metadata saves and reads;
  - all-or-nothing list transactions;
  - the NULL columns a list save leaves behind.
- **Handlers** (`handlers.dfy`, from `src/handlers/models.go`). The HTTP
  handlers, modelled as functions from the request, the server's local state
  and the registry's answers to a response and a new local state:
  - cache-first listing, the refresh bypass and write-back;
  - routing of `/api/models/...`;
  - the detail, enable, download and stats routes.
- **Cli** (`cli.dfy`). Models the `models list|download|use|status` commands of
  `src/cmd/models.go`. The older `cmd/models.go` holds the same statements
  against the older models package, so `Cli` models both files.
- **ProjectStore** (`project_store.dfy`, from `src/memory/memory.go`). The
  memory table, the project names and the active-project setting:
  - ranked recall queries with `LIMIT`;
  - idempotent project insert;
  - sorted project listing;
  - delete and rename, which cascade to the active project.
- **LegacyMemory** (`legacy_memory.dfy`, from `memory/memory.go`). That file
  repeats the current memory package's entry, project and active-project
  functions statement for statement. `ProjectStore` models those; this module
  models only the one function that differs, `AddMemory`, which has no
  importance argument.
- **Wrappers**, **Text**. Shared helpers:
  - `Option`, `Result` and `Outcome` for Go's error returns;
  - the string operations of Go's standard library that the code relies on
    (`strings.Split`, `TrimSpace`, `ToLower`, `filepath.Base`/`Join`,
    `url.PathUnescape`, `Sscanf("%d")`, byte-wise string order).

External effects are parameters:
- **Registry (HTTP) answers:** functions of the URL, model id or file transfer.
- **SQLite statement outcomes:** `Outcome` values or fault enumerations that
  name the failing statement.
- **State file contents:** a `StateFile` value.
- **Clock:** an integer instant. The CLI download loop reads the clock once
  per id, so there it is a function of the id's position in the list.
- **Llama loader result:** a function of the model path.

## Model

| member | source | states |
|---|---|---|
| `Catalog.ListModelsByType` | src/models/models.go:141-166 | The listing is the registry's answer for a URL that is the listing endpoint followed by the pipeline tag. |
| `Catalog.ListUrlDistinct` | src/models/models.go:142 | Different pipelines query different URLs, so a listing answers only for the pipeline asked about. |
| `Catalog.GetModelDetail` | src/models/models.go:171-209 | A fetch error is returned as is. Otherwise the detail carries the model's id, last-modified time, download count, tags and sha, and one file name per sibling in registry order. |
| `Catalog.Classify` | src/models/models.go:384-396 | On the lower-cased name, the first matching rule decides: `.gguf` suffix, else contains `gptq`, else `.safetensors` suffix, else `.onnx` suffix. Each kind holds iff its rule matches and no earlier rule does. |
| `Catalog.ScanSiblings` | src/models/models.go:379-399 | The sibling loop keeps file names in order and sums all sizes. Each flag is set iff some file has that kind. The backend set is exactly `transformers` plus the tag of every matched file. |
| `Catalog.AnyArchitectureLlama` | src/models/models.go:417-422 | The architecture loop with its early break finds llama iff some architecture mentions it, case-insensitively. |
| `Catalog.Enrich` | src/models/models.go:365-431 | Enriched metadata: detail fields, license, summed size, first-match flags and the backend set. Llama compatibility holds iff the requested id or some fetched architecture mentions llama. After a failed config fetch the config fields stay zero. |
| `Catalog.GetModelMetadata` | src/models/models.go:336-434 | Fails exactly when the model document fetch fails, with its error. A config fetch failure is not an error. |
| `Catalog.MetadataExtendsDetail` | src/models/models.go:336-350 | The metadata fetch fails exactly when the detail fetch fails. On success its detail part is exactly what `GetModelDetail` returns for the same document. |
| `Catalog.GgufTakesPrecedence` | src/models/models.go:385-391 | A file named like a GPTQ build but ending in `.gguf` counts as GGUF, not as quantized. |
| `Catalog.EnrichEmpty` | src/models/models.go:379-380 | With no files, no config and a non-llama id, the only backend is `transformers`; no flag is set and the size is zero. |
| `Catalog.GetGlobalStats` | src/models/models.go:214-235 | Transport errors and non-200 bodies are errors. A missing count header gives "total count header missing". A success came from a 200 reply with a header, and its count fits in 64 bits. |
| `Catalog.GlobalStatsReadsCount` | src/models/models.go:228-234 | A decimal count header is read back exactly. |
| `Catalog.GlobalStatsGarbageIsZero` | src/models/models.go:232-234 | A header that does not scan as a number yields zero models, not an error, because the scan error is ignored. |
| `Download.RunFrom` | src/models/models.go:272-282 | Transfers are attempted in plan order, and every attempted file but the last succeeded. The run succeeds iff every remaining transfer succeeds. A failure returns that transfer's error after one progress call fewer than attempts. Progress call j is (j+1, total). |
| `Download.DownloadModelWithProgress` | src/models/models.go:248-283 | A failed detail fetch or directory creation returns its error before any transfer. Success holds iff every sibling's transfer succeeds; it returns the sha after one progress call per file. On failure the attempts are a prefix of the plan that ends at the failing file. |
| `Download.RunFromFailsAt` | src/models/models.go:273-280 | When file k is the first to fail, the loop from i makes exactly k-i progress calls, attempts k-i+1 transfers and returns file k's error. |
| `Download.FailureAfterProgress` | src/models/models.go:272-281 | A failure at file k (from zero) comes after exactly k progress calls, and no later file is attempted. |
| `Download.ThreeFileProgress` | src/models/models.go:278-282 | Three successful files report (1,3), (2,3), (3,3) and return the sha. |
| `Download.TopLevelFilePath` | src/models/models.go:268-275 | A top-level file lands at `models/<id>/<rfilename>`. |
| `Download.NestedFilesCollide` | src/models/models.go:275 | Files in different sub-folders with the same base name are written to the same local path. |
| `Lifecycle.LoadState` | src/models/models.go:104-121 | A missing file loads as no active model and an empty map. Open and decode errors are returned. An absent or null `models` object becomes an empty map; a present one is loaded as stored. |
| `Lifecycle.SaveState` | src/models/models.go:125-137 | A successful save is read back by `LoadState` as the saved state. A failed save returns the error and leaves the file as it was. |
| `Lifecycle.MarkActive` | src/models/models.go:315-324 | Fails iff the id is not a key. Otherwise `active` names the id and exactly that record is flagged, so both records agree for a non-empty id. Keys and all other fields are unchanged. |
| `Lifecycle.MarkActiveIdempotent` | src/models/models.go:320-324 | Selecting the same model twice equals selecting it once. |
| `Lifecycle.MarkActiveLastWins` | src/models/models.go:320-324 | Selecting a and then b equals selecting b. |
| `Lifecycle.ActivateModel` | src/models/models.go:309-330 | A load error is returned as is. An unknown id gives "model not downloaded" and nothing is saved. Success holds iff the state loads, the id is a key and the save succeeds. It returns that model's path, and the saved file loads as the loaded state with exactly that record marked active. A failure leaves the file unchanged. |
| `ModelCache.Upsert` | src/memory/models.go:18 | `INSERT OR REPLACE` on the id key: the new row is present, and the other rows are exactly those with another id. |
| `ModelCache.UpsertLookup` | src/memory/models.go:18 | After an upsert, a read by the row's id finds the new row; reads of other ids are unchanged. |
| `ModelCache.UpsertKeepsUnique` | src/memory/memory.go:80 | Upserts keep ids unique, as the primary key on `id` requires. |
| `ModelCache.SaveModelList` | src/memory/models.go:11-38 | The save fails iff begin, prepare, one of the per-model inserts or commit fails, and then the table is unchanged. Otherwise every model is upserted under the pipeline, in order. |
| `ModelCache.GetModelList` | src/memory/models.go:41-67 | A query, scan or row-iteration error is returned. Otherwise a summary is listed iff some row has that pipeline and those values. |
| `ModelCache.UpsertAllKeeps` | src/memory/models.go:25-32 | Rows whose id is not in the list survive a list save unchanged. |
| `ModelCache.UpsertAllLast` | src/memory/models.go:25-32 | For each id, the row of its last occurrence in the list is present after the save. |
| `ModelCache.SavedListIsListed` | src/memory/models.go:18-43 | After a successful list save, every listed model whose id is not repeated later is returned by `GetModelList` for that pipeline. |
| `ModelCache.UpsertAllOnlyAdds` | src/memory/models.go:25-32 | Every row after a list save was there before or is a row built from the list. |
| `ModelCache.UpsertAllRemoves` | src/memory/models.go:18-32 | After a list save, every row whose id occurs in the list belongs to the saved pipeline. |
| `ModelCache.ListSaveRehomes` | src/memory/models.go:18-43 | An id saved under one pipeline is no longer listed under any other pipeline. |
| `ModelCache.BoolToInt` | src/memory/models.go:161-166 | The stored value is 0 or 1, and it is 1 exactly for true. |
| `ModelCache.SaveModelDetail` | src/memory/models.go:70-80 | A successful save makes a read of the detail's id find the detail row. Every other id reads as before. A failed save changes nothing. |
| `ModelCache.NullScanErrorTexts` | src/memory/models.go:171-174 | A NULL hash gives `sql: Scan error on column index 4, name "sha": converting NULL to string is unsupported`, and a NULL file list the same with index 5, name "files". |
| `ModelCache.GetModelDetail` | src/memory/models.go:169-193 | A query error is returned. A missing row is a miss, not an error. A NULL sha fails with the scan error for column index 4, name "sha"; a NULL file list under a present sha fails with index 5, name "files". Otherwise the row's id, time, downloads, tags, sha and files are returned. |
| `ModelCache.DetailRoundTrip` | src/memory/models.go:70-193 | Reading back a saved detail returns it unchanged. |
| `ModelCache.SaveModelMetadata` | src/memory/models.go:85-104 | As written the insert names 19 columns but has 18 placeholders, so every save fails with SQLite's arity error and the table is unchanged. |
| `ModelCache.InsertMetadata` | src/memory/models.go:90-99 | An insert whose placeholders do not match the 19 columns fails with the arity error and writes nothing. A matching one succeeds iff it runs, and then the id reads as the metadata row and every other id as before. |
| `ModelCache.SaveModelMetadataFixed` | src/memory/models.go:85-104 | With one placeholder per column, a successful save makes a read of the id find the metadata row. Every other id reads as before. A failed save changes nothing. |
| `ModelCache.MetadataRoundTripFailsAsWritten` | src/memory/models.go:90-94 | As written, metadata saved into an empty cache reports "18 values for 19 columns" and is not found when read back. |
| `ModelCache.GetModelMetadata` | src/memory/models.go:107-158 | A query error is returned. A missing row is a miss. A NULL sha or file list fails with the same column-indexed scan error as the detail read. Otherwise the detail part is the detail read's, the flags are read as "stored value is 1", and every NULL-able column (model type, hidden size, layers, heads, backends, license, card, size) reads as its stored value, or as empty, 0 or no backends when NULL. |
| `ModelCache.MetadataRoundTrip` | src/memory/models.go:85-158 | With the corrected insert, reading back saved metadata returns the same values, booleans included. |
| `ModelCache.ListSaveClearsDetail` | src/memory/models.go:107-127 | A list save replaces the whole row, so a later detail or metadata read of that id fails with the scan error for the NULL `sha` column (index 4). |
| `Handlers.ModelsHandler` | src/handlers/models.go:17-63 | Non-GET gives 405; a missing pipeline gives 400. A GET with a pipeline whose cached list (a read error counts as empty) is non-empty is answered with exactly that list, server unchanged and registry not asked, unless refresh is asked for. Otherwise the registry list is returned and written back under the pipeline. A registry error gives 500 and writes nothing. |
| `Handlers.RefreshModelsHandler` | src/handlers/models.go:218-250 | Non-POST gives 405; a missing pipeline gives 400. Otherwise it always fetches: an error gives 500, and a success is returned and written back. |
| `Handlers.RefreshThenListIsCached` | src/handlers/models.go:39-45 | After a successful refresh, a plain listing is served from the cache, whatever the registry would now answer. |
| `Handlers.UnescapeOrKeep` | src/handlers/models.go:71-73 | A path element without `%` is kept as it is. |
| `Handlers.FetchedDetail` | src/handlers/models.go:98-104 | The registry's metadata when its fetch succeeds, otherwise 500 with the fetch error. |
| `Handlers.DetailRoute` | src/handlers/models.go:75-117 | Non-GET gives 405. Cached metadata is served when there is some and no refresh is asked for. On refresh, a missing cache, a miss or a read error, the registry's metadata is returned, and its error gives 500 with the message. The server never changes, since the metadata save always fails. |
| `Handlers.GlobalStatsRoute` | src/handlers/models.go:130-143 | GET only. A global count error gives 500; otherwise the count is returned. |
| `Handlers.EnableRoute` | src/handlers/models.go:146-164 | POST only. An activation error gives 400. A load error gives 500 while the new active id stays saved. Only a successful activation and load gives 204. |
| `Handlers.Percent` | src/handlers/models.go:181 | The percentage lies between 0 and 100 and is 100 for the last file. |
| `Handlers.StreamOf` | src/handlers/models.go:180-192 | One progress event per completed file, then exactly one terminal event: error with the message, or done. |
| `Handlers.DownloadRoute` | src/handlers/models.go:165-192 | GET only. The stream is that of the download run, and the state file is not touched. |
| `Handlers.CompletedStreamEndsAtHundred` | src/handlers/models.go:180-192 | A completed download reports 100 percent just before done. |
| `Handlers.ModelStatsRoute` | src/handlers/models.go:193-209 | GET only. A fetch error gives 500; otherwise the detail is returned. |
| `Handlers.PathParts` | src/handlers/models.go:69-74 | A route path always splits into at least one element. |
| `Handlers.ModelActionHandler` | src/handlers/models.go:67-213 | One element goes to the detail route. With two or more, `stats/global` goes to the global count, and enable, download and stats go to their routes with the id decoded again. Any other action, including `global` under an id other than `stats`, is 404. |
| `Handlers.ActionPathParts` | src/handlers/models.go:69-74 | `/api/models/<seg>/<action>` splits into the unescaped segment and the action. |
| `Handlers.DetailPathParts` | src/handlers/models.go:69-75 | `/api/models/<id>` with a plain id is a one-element path. |
| `Handlers.ActivateIsNotFound` | src/handlers/models.go:210-211 | `activate` and `deactivate` are not routes and answer 404. |
| `Handlers.ActionIdDecodedTwice` | src/handlers/models.go:124-127 | Action routes unescape the id twice, so an id escaped twice reaches the route as the id. |
| `Handlers.DownloadThenEnableFails` | src/handlers/models.go:146-192 | A download over HTTP records nothing, so enabling an unrecorded model still fails with 400 "model not downloaded". |
| `Handlers.RefreshDetailAnswersRegistry` | src/handlers/models.go:83-104 | With `refresh=1` the detail page answers the registry's current metadata, or 500 with its error, whatever the cache holds. |
| `Handlers.ListReadErrorRefetches` | src/handlers/models.go:39-57 | A listing whose cache read fails is fetched from the registry and written back, exactly as with an empty cache. |
| `Handlers.DetailAfterListingRefetches` | src/handlers/models.go:91-110 | After a listing, the model's detail page never answers from the cache: each visit answers the registry of that moment, the cache stays as listed, and the model stays in its pipeline's listing. |
| `Cli.MarkDownloaded` | src/cmd/models.go:60-71 | Each listed model is starred iff its id is a key of the loaded state; nothing is starred when the state does not load. |
| `Cli.List` | src/cmd/models.go:40-74 | A choice outside 1..5 gives "invalid choice" and keeps the session. A valid choice k remembers pipeline k. It returns the registry's error, or the list in order with the markers. |
| `Cli.ChoiceSelects` | cmd/models.go:33-41 | Typing the decimal number k, with surrounding white space, selects pipeline k. |
| `Cli.UnreadableChoiceIsInvalid` | src/cmd/models.go:47-55 | Input that does not scan as a number is rejected as an invalid choice. |
| `Cli.RecordDownloads` | src/cmd/models.go:107-122 | `active` is untouched. Keys grow by exactly the requested ids. Records outside the ids are unchanged, and without force so is every existing record. Each fetched id holds an inactive record with path `models/<id>`, the fetched sha, and the clock reading taken at one of its positions in the argument list. A position is fetched with `--force`, or when its id is neither stored nor earlier in the list. The loop succeeds iff every fetch it makes succeeds, and a failure returns the error of the first fetch that fails. |
| `Cli.LoopOutcome` | src/cmd/models.go:107-115 | The download loop skips held ids, succeeds iff every fetch it makes succeeds, and otherwise returns the first failing fetch's error. |
| `Cli.IdsToFetch` | src/cmd/models.go:92-106 | Without `--all` the ids are the arguments. `--all` with no remembered pipeline fails; otherwise the ids are the listing's ids, in order. |
| `Cli.DownloadCommand` | src/cmd/models.go:87-125 | A load error, the `--all` or listing error, the first failing fetch's error and a write error are each returned with the file unchanged. It succeeds iff the state loads, the ids are known, the loop succeeds and the write succeeds, and then the file loads as the loop's state: `active` kept and the keys grown by the requested ids. |
| `Cli.ForceRedownloadOfActiveBreaksConsistency` | src/cmd/models.go:116-121 | Force-downloading the active model leaves `active` naming a record whose flag is false. |
| `Cli.DownloadKeepsConsistency` | cmd/models.go:97-102 | Without `--force`, download keeps the two records of the active model in agreement. |
| `Cli.DownloadRerunIsIdle` | cmd/models.go:89-92 | Re-running a download of recorded ids without `--force` fetches nothing and changes nothing. |
| `Cli.Use` | src/cmd/models.go:143-159 | A load error is returned and nothing is saved. An unknown id fails with "model not downloaded: <id>" and nothing is saved. A save error is returned. It succeeds iff the state loads, the id is a key and the save succeeds, and then the file loads as the loaded state with exactly that record marked active. |
| `Cli.UseMatchesActivateModel` | cmd/models.go:116-132 | `use` leaves the same state file as the server's `ActivateModel`, and succeeds exactly when it does. |
| `Cli.Status` | src/cmd/models.go:167-183 | The load error, or "no active model" iff `active` is empty. Otherwise the active record, or the nil dereference iff `active` is not a key. |
| `Cli.StatusAfterUse` | cmd/models.go:137-154 | After a successful `use` of a non-empty id, `status` shows that model with its flag set. |
| `Cli.DownloadThenStatusIsSafe` | src/cmd/models.go:172-176 | From a state whose `active` is empty or a key, a successful download never makes `status` dereference a missing record. |
| `ProjectStore.AddEntry` | src/memory/memory.go:124-136 | A failed insert changes nothing. A success appends one row with a new id, the time, and importance 0 when none is given, else the first value given. |
| `ProjectStore.AddEntryKeepsIdsFresh` | src/memory/memory.go:37 | Inserting keeps row ids distinct and below the next id. |
| `ProjectStore.Insert` | src/memory/memory.go:143 | Inserting into a ranked sequence keeps it ranked and adds exactly the one entry. |
| `ProjectStore.Sort` | src/memory/memory.go:172 | The result is ranked and a permutation of the input. |
| `ProjectStore.OfProject` | src/memory/memory.go:143 | Exactly the project's rows, each as often as stored. |
| `ProjectStore.Recall` | src/memory/memory.go:142-195 | One admissible answer: only the project's rows, ranked, as many as `LIMIT` allows (all when negative). No row left out ranks above a returned one. |
| `ProjectStore.LastNEntries` | src/memory/memory.go:142-166 | A read error is returned. Otherwise rows of the project only, each at most as often as stored, newest first, exactly min(n, count) of them (all when n is negative), and no omitted row is newer than a returned one. The order among equal timestamps is not fixed. |
| `ProjectStore.TopImportantEntries` | src/memory/memory.go:171-195 | A read error is returned. Otherwise rows of the project only, each at most as often as stored, by importance then recency, exactly min(n, count) of them, and no omitted row ranks above a returned one. Ties may come in any order. |
| `ProjectStore.AddedEntryComesFirst` | memory/memory_test.go:28-51 | An entry added after every stored row is the first one `LastNEntries` returns, for any limit but zero. |
| `ProjectStore.TopEntryIsMostImportant` | memory/memory_test.go:52-58 | The first row `TopImportantEntries` returns has the highest importance of the project's rows. |
| `ProjectStore.FirstRanksHighest` | src/memory/memory.go:142-195 | Whatever order the database picks among ties, the first row of an answer with a limit other than zero ranks at least as high as every row of the project. |
| `ProjectStore.NewestAnswersFirst` | src/memory/memory.go:142-166 | In any answer to a recency query with a limit other than zero, a row newer than every other stored row comes first. |
| `ProjectStore.AddProject` | src/memory/memory.go:201-204 | A success adds the name to the project set and nothing else changes; a failure changes nothing. |
| `ProjectStore.AddProjectIdempotent` | memory/memory.go:119-122 | Adding an existing project changes nothing, and adding twice is adding once. |
| `ProjectStore.SetActiveProject` | src/memory/memory.go:279-282 | A success replaces the single setting with the name. |
| `ProjectStore.GetActiveProject` | memory/memory.go:168-176 | Returns the stored name, or "" when no setting exists; a read error is returned. |
| `ProjectStore.SetThenGetActive` | src/memory/memory.go:279-295 | Reading after setting returns the name set. |
| `ProjectStore.DeleteProject` | src/memory/memory.go:210-223 | A failed delete changes nothing. Otherwise the name is gone even when a later step fails. On success the setting is cleared iff it equalled the name. Memory rows are never touched. |
| `ProjectStore.DeleteThenGetActive` | memory/memory.go:125-138 | Deleting the active project leaves the active project ""; deleting another keeps it. |
| `ProjectStore.RenameProject` | src/memory/memory.go:228-250 | A failure leaves everything unchanged. Renaming onto another existing name fails with the unique-constraint error. On success the name and every memory row's project are renamed. The setting is renamed when it named the old project, except that an ignored error reading it leaves it as it was (or, for an empty old name, overwrites any setting with the new name). Nothing else changes. |
| `ProjectStore.RenameWithUnreadSettingLeavesStaleActive` | src/memory/memory.go:241-249 | When the setting read fails, renaming the active project still commits, and the setting names a project that no longer exists. |
| `ProjectStore.RenameRoundTrip` | src/memory/memory.go:228-250 | Renaming to a fresh name and back restores the store exactly. |
| `ProjectStore.RenameCarriesActive` | memory/memory_test.go:154-169 | Renaming the active project makes the new name active and replaces the old name in the project set. |
| `ProjectStore.ListProjects` | src/memory/memory.go:255-273 | A read error is returned. Otherwise every project appears, nothing else does, in strictly ascending byte order. |
| `ProjectStore.AscendingUnique` | memory/memory.go:141-159 | Two ascending listings of the same names are equal, so the listing is fully determined. |
| `ProjectStore.AddMemory` | src/memory/memory.go:302-309 | An open failure is returned with nothing stored; otherwise it is `AddEntry` with the given importance. |
| `ProjectStore.AddMemoryThenRecall` | memory/memory_test.go:62-83 | A line added with importance i after every stored row is what a one-line recall returns, with importance i. |
| `LegacyMemory.AddMemory` | memory/memory.go:179-186 | An open failure is returned. A stored line always has importance 0. |
| `LegacyMemory.AddMemoryIsDefaultImportance` | memory/memory.go:179-186 | The older `AddMemory` stores what the current one stores with importance 0. |

## Left out

- HTTP transport, status checks and JSON decoding are collapsed into `Result`
  values per URL or id. The registry's JSON fields are taken as decoded.
  `downloadFile` and `fetchJSON` are modelled by their outcomes.
- `DownloadModel` (a call with no progress callback) is the `fetch`
  parameter of the CLI download loop.
- File-system mechanics are modelled by outcomes only: `MkdirAll`, `Create`,
  `io.Copy`, and `filepath.Clean` of odd ids such as `..`.
- Lifecycle.SaveState: a failed save is modelled as leaving the old file,
  although after `os.Create` has succeeded the file is already truncated.
  The failure clauses of `Lifecycle.ActivateModel`, `Cli.Use` and
  `Cli.DownloadCommand` that say the file is unchanged rest on this.
- `LocalModel` values in the state file may be JSON `null`. The model stores
  only present records.
- Text functions are ASCII-only: `strings.ToLower` and `strings.TrimSpace`
  are modelled on ASCII letters and white space, not full Unicode.
- Catalog.Enrich: the download size is an unbounded sum, while the source
  accumulates it in an `int64` that could wrap.
- Handlers.Percent: integer division `done*100/total`. The source computes it
  in `float64` and truncates, which can give one less for some values
  (29 of 100 gives 28).
- Handlers.ModelActionHandler: the "bad request" branch for fewer than two
  path elements cannot be reached, because `strings.Split` always returns at
  least one element and one element goes to the detail route. The model has
  no such branch.
- The "streaming unsupported" branch of the download route (a response
  writer without `Flush`) is not modelled.
- Logging, response headers and JSON encoding of responses are left out.
- The model cache is a sequence of rows in storage order. `GetModelList`
  contracts state membership only: SQL gives no order.
- Each cache and memory read takes one read outcome standing for every error
  its query can raise: preparing, running, scanning a row and `rows.Err`.
  A failing read returns that error, never a partial list. The setting read
  inside `RenameProject`, whose error the code ignores, is the
  `ReadSettingFails` fault instead.
- `InitDB` schema creation and `ALTER TABLE` migrations are left out, as are
  the users and tokens tables. An `InitDB` failure appears as a missing cache
  or as the `init` outcome of `AddMemory`.
- Timestamps are integers. `CURRENT_TIMESTAMP` has second granularity, and
  rows with equal keys come back in an unspecified order. The ranking
  contracts allow any order among ties.
- The older models package imported by `cmd/models.go` is not part of this
  model. The command logic is modelled against the current package.
- `cobra` argument-count checks are not modelled. `download` accepts at most
  one id and `use` exactly one.
- There is no locking around the state file or the cache. Only sequential
  calls are modelled.
- `memory/memory_test.go` calls a four-argument `AddMemory` and
  `RenameProject`, which `memory/memory.go` does not declare. The rows that
  cite that test state the current package's behaviour.

## Findings

| source | as written | input that shows it | evidently intended | confidence | as-written member | corrected member |
|---|---|---|---|---|---|---|
| src/memory/models.go:90-94 | The metadata insert names 19 columns but its `VALUES` list has 18 placeholders, so SQLite refuses it and the save always fails. The detail handler only logs that error, so fetched metadata is never cached and every visit refetches. | Any metadata, e.g. saving any model into an empty cache, then reading it back | 19 placeholders, one per column, so that metadata saved is read back | high (not executed) | `ModelCache.SaveModelMetadata`, `ModelCache.MetadataRoundTripFailsAsWritten` | `ModelCache.SaveModelMetadataFixed`, `ModelCache.MetadataRoundTrip` |

The handlers call the save as written (`Handlers.DetailRoute`,
`Handlers.DetailAfterListingRefetches`), since that is what the server does;
`SaveModelMetadataFixed` is the definition the cache's own round trip is
proved on.
