# Gallery indexer, modelled in Dafny

This project models the indexer of the gallery application. The indexer walks a
directory tree and records every image file it finds in the PostgreSQL table
`images`, one row per (directory, file name). It pauses after every `pauseAfter`
files. It is driven by a scheduled job that guards against overlapping runs with an
indexing flag and logs each run in a job-history table. It also serves four HTTP
routes on top of the store.

Modules, in dependency order:

- `wrappers.dfy`: `Option`, `Result` and `JsNumber`. A `JsNumber` is an integer or
  NaN, which is what `new_files` becomes.
- `paths.dfy`: the parts of Node's `path` module and of the string methods the
  scanner uses (`join`, `dirname`, `basename`, `extname`, ASCII `toLowerCase`,
  `endsWith`), and the substring test behind `LIKE '%q%'`.
- `paging.dfy`: `LIMIT`/`OFFSET`, including PostgreSQL's errors for negative
  values, and the route's page offset `(page - 1) * limit`.
- `images.dfy`: the `images` table as a value (`Table`), the upsert
  `insert_file_data` as a function on it (`Upsert`), and the store object
  `ImageStore` whose method `InsertFileData` updates it in place.
- `image_queries.dfy`: `count_all_images`, `search_files_by_name` and
  `count_files_by_name`.
- `scan_spec.dfy`: what one call of `searchFiles` does, as a function of the tree it
  lists. It returns the table the call leaves, the pauses it takes and the tally it
  returns or the error it throws. It also defines the reference listing `Walk`: the
  qualifying files, depth-first.
- `scan_properties.dfy`: what `searchFiles` promises, proved about that function.
- `indexer.dfy`: the scanner `SearchFiles`, an imperative loop proved equal to the
  specification, plus `IndexFiles`, `CleanupRunningJobs`, `LogIndexingJob` and
  `UpdateIndexingJob`.
- `job_history.dfy`: the job-history table and the indexing flag, as the class
  `JobStore`, together with the history queries.
- `jobs.dfy`: `start_scheduled_job`, proved against the job row and the sequence of
  store writes it must produce, and the flag reset the server performs at startup.
- `legacy_indexer.dfy`: the older stand-alone scanner in `indexer/indexer.js`.
- `files_route.dfy` and `indexer_route.dfy`: the `/file/*` and `/indexer/*` routes.

Pauses are not waited out. Each one is recorded in a ghost trace (`Timer.pauses`)
together with the directory whose loop took it.

The model follows the code, including these behaviours of it, which a reader of
the code might not expect:

- The throttle counter lives in each call of `searchFiles`, not across the whole run:
  it counts only the qualifying files listed directly in the directory.
- Recursive calls do not pass `pauseTimeSeconds`, so every directory below the start
  path pauses for the default 5 seconds.
- The tallies of subdirectories are thrown away. The result describes only the start
  directory's own files.
- `new_files` does not count inserts. `insert_file_data` returns nothing, so
  `new_files` becomes NaN at the first qualifying file.
- A stat or listing failure anywhere in the tree aborts the whole scan, because there
  is no per-entry catch. When that happens, `indexFiles` leaves the indexing flag set,
  and `start_scheduled_job` clears it afterwards.
- `total_files` of a completed job is the count of all rows in `images`, not only of
  the rows under the scanned root.
- At startup the server only clears the indexing flag. Running jobs are removed later,
  by the next scheduled run, which deletes them before it opens its own job.
- Matching is a raw suffix test of the lower-cased path against the configured
  extensions, taken verbatim. There is no dot and no normalisation of the
  configured values.

The job-history and flag operations (`is_indexing`, `update_indexing_status`,
`delete_running_jobs`, `insert_indexing_job`, `update_indexing_job`,
`get_failed_jobs`, `get_completed_jobs`, `get_running_jobs`,
`get_indexing_history`) are called by the core but are not defined in
`indexer/db/postgresql.js`. Their implementation is not part of this model. `JobStore`
gives them the meaning their callers rely on:

- ids come from a serial column;
- `delete_running_jobs` deletes the rows marked running;
- the history queries list rows most recent first, with `LIMIT` and `OFFSET`.

## Model

| member | source | states |
|---|---|---|
| Paths.Lower | indexer/indexer/indexer.js:106 | `toLowerCase` keeps the length, leaves no ASCII capital, turns each capital into the letter 32 code points above it and leaves every other character unchanged |
| Paths.LowerIdempotent | indexer/indexer/indexer.js:106 | lower-casing an already lower-cased string changes nothing |
| Paths.JoinSplits | indexer/indexer/indexer.js:100-114 | for a directory in normal form and an entry name, `dirname` and `basename` of `path.join(dir, name)` give back `dir` and `name`, and its `extname` is that of `name` |
| Paths.NoDotNoExtension | indexer/indexer/indexer.js:114 | a name without any '.' has an empty `extname` |
| Paths.JoinKeepsSuffix | indexer/indexer/indexer.js:100-106 | a suffix of the lower-cased entry name is a suffix of the lower-cased joined path |
| Paths.UpperSuffixNeverMatches | indexer/indexer/indexer.js:106 | a suffix containing an upper-case letter never ends a lower-cased string |
| Paging.WindowShape | indexer/db/postgresql.js:95 | `LIMIT l OFFSET o` keeps min(l, max(0, n - o)) rows, namely those at positions o, o + 1, … |
| Paging.AdjacentWindows | indexer/db/postgresql.js:95 | two consecutive pages of size `l` make up the page of size 2·`l` starting where the first starts |
| Paging.PageOffsetIsProduct | indexer/routes/files.js:131 | the page offset is `(page - 1) * limit` |
| Paging.PageOffsetFacts | indexer/routes/files.js:131 | page 1 starts at offset 0; page n + 1 starts `limit` rows after page n; with a positive limit the offset is non-negative exactly when page ≥ 1 |
| Images.UpsertKeepsWellKeyed | indexer/db/postgresql.js:34-73 | the upsert keeps every row under its own (path, filename), with a distinct id already issued by the sequence |
| Images.UpsertRow | indexer/db/postgresql.js:44-55 | after a storable upsert the row under (path, filename) exists with the record's size, times and extension; it keeps its id and `indexed` if it existed, and otherwise gets the next id and `indexed` = now |
| Images.UpsertCount | indexer/db/postgresql.js:46-49 | a new key adds exactly one row; an existing key leaves the row count unchanged |
| Images.UpsertFrame | indexer/db/postgresql.js:44-73 | no key disappears; only the record's key is added, and only when the size fits INTEGER; rows under every other key are unchanged |
| Images.UpsertIdempotent | indexer/db/postgresql.js:44-55 | upserting the same record twice leaves the same rows as upserting it once |
| Images.UpsertAllAppend | indexer/db/postgresql.js:44-73 | upserting a batch `a` and then `b` is upserting `a + b` |
| Images.UpsertAllKeys | indexer/db/postgresql.js:44-73 | after a batch of upserts the keys are the old keys plus those of the records whose size fits |
| Images.UpsertAllKeepsWellKeyed | indexer/db/postgresql.js:34-73 | a batch of upserts keeps the table well keyed |
| Images.ImageStore.InsertFileData | indexer/db/postgresql.js:44-73 | the store's new table is `Upsert` of the old one, and it stays well keyed |
| Images.ImageStore.constructor | indexer/db/postgresql.js:16-38 | an empty, well-keyed table whose SERIAL sequence starts at 1 |
| ImageQueries.CountAfterUpsert | indexer/db/postgresql.js:78-83 | the row count grows by one exactly when the upsert stores a new key, and is otherwise unchanged |
| ImageQueries.CountByNameAtMostAll | indexer/db/postgresql.js:112-125 | the count by name never exceeds the count of all rows |
| ImageQueries.NameLeTotal | indexer/db/postgresql.js:94 | any two filenames are comparable under the byte-wise order |
| ImageQueries.NameLeTransitive | indexer/db/postgresql.js:94 | the byte-wise order is transitive |
| ImageQueries.SortKeys | indexer/db/postgresql.js:92-94 | the selected keys, each exactly once, in filename order (descending only for "desc"), with the order among equal filenames left open |
| ImageQueries.SearchFilesByName | indexer/db/postgresql.js:90-105 | fails exactly when LIMIT or OFFSET is negative; otherwise returns min(limit, max(0, count - offset)) distinct rows of the table, each matching the lower-cased substring filter, in the requested filename order |
| ImageQueries.PageWithinCount | indexer/db/postgresql.js:90-125 | a page never holds more rows than `count_files_by_name` of the same query |
| ImageQueries.SearchWindow | indexer/db/postgresql.js:90-105 | a page is the rows under one window of a single ordering of the matching keys |
| ImageQueries.AdjacentPages | indexer/db/postgresql.js:92-99 | for three queries, each free to order equal filenames its own way, the filenames of the pages at `offset` and `offset + limit` together are those of the double page at `offset` |
| ImageQueries.SearchOrderIsStoreOrder | indexer/db/postgresql.js:92-95 | the model's order of the matching rows is one that ORDER BY filename allows |
| ImageQueries.SortedNamesUnique | indexer/db/postgresql.js:94 | two sequences of filenames sorted the same way and holding the same names are equal |
| ImageQueries.EnumerationNames | indexer/db/postgresql.js:92-93 | two listings of the same rows hold the same filenames, counted with repetition |
| ImageQueries.StoreOrderNames | indexer/db/postgresql.js:92-95 | every order ORDER BY filename allows gives the matching rows' filenames in one and the same sequence |
| ImageQueries.PageNamesAnyOrder | indexer/db/postgresql.js:92-99 | a page of the model's search holds the filenames that the same window of any allowed order holds |
| ScanProperties.QualifiesIff | indexer/indexer/indexer.js:106 | a file qualifies exactly when some configured extension, taken verbatim, ends its lower-cased path |
| ScanProperties.UpperCaseExtensionNeverMatches | indexer/indexer/indexer.js:106 | a configured extension with an upper-case letter never matches; dropping it from the list changes no decision |
| ScanProperties.SuffixNeedsNoDot | indexer/indexer/indexer.js:106-114 | a name without any '.' that ends in a configured extension is selected, and its record's extension is empty |
| ScanProperties.EmptyExtensionSelectsAll | indexer/indexer/indexer.js:106 | an empty configured extension selects every file |
| ScanProperties.RecordKey | indexer/indexer/indexer.js:107-115 | the record of a file listed in a directory is keyed by (that directory, its name); its extension is the name's `extname` and its size the stat's |
| ScanProperties.ScanFollowsWalk | indexer/indexer/indexer.js:94-130 | the scan upserts, in order, a prefix of the depth-first listing of qualifying files, and all of it when it returns normally |
| ScanProperties.ScanEntriesFollowWalk | indexer/indexer/indexer.js:99-127 | the loop from entry i on upserts a prefix of the listing of entries i on, and all of it when it finishes |
| ScanProperties.VisitFollowsWalk | indexer/indexer/indexer.js:100-121 | one loop pass upserts a prefix of that entry's records: the file itself, or everything below a subdirectory before the next sibling |
| ScanProperties.FollowStep | indexer/indexer/indexer.js:99-105 | what one entry upserted, followed by what the later entries upserted, is a prefix of the directory's records |
| ScanProperties.ScanRecordsListing | indexer/indexer/indexer.js:94-130 | a normal return leaves exactly the old keys plus the keys of the storable qualifying files under the start path |
| ScanProperties.DirectoriesNeverRecorded | indexer/indexer/indexer.js:103-106 | a tree without files leaves the table unchanged: directories are recursed into, never recorded, whatever their names |
| ScanProperties.NestedPausesUseDefault | indexer/indexer/indexer.js:94-126 | every pause of a call is tagged with its own directory or a directory whose path starts with it; the call's own pauses last `pauseTimeSeconds`, the deeper ones 5 seconds |
| ScanProperties.EntriesPauseShape | indexer/indexer/indexer.js:99-127 | the same for the loop from entry i on |
| ScanProperties.VisitPauseShape | indexer/indexer/indexer.js:103-126 | the same for one loop pass |
| ScanProperties.NestedNotCounted | indexer/indexer/indexer.js:105 | pauses taken in a subdirectory are never pauses of the parent's loop |
| ScanProperties.VisitTally | indexer/indexer/indexer.js:103-126 | after one pass the counter is 0 if it reached `pauseAfter` and otherwise its old value plus one for a qualifying file; `new_files` turns NaN at a qualifying file; the subdirectory's tally plays no part |
| ScanProperties.VisitOwnPauses | indexer/indexer/indexer.js:123-126 | one pass takes one pause of its own loop exactly when the counter reaches `pauseAfter`, and none otherwise |
| ScanProperties.EntriesThrottle | indexer/indexer/indexer.js:99-127 | the loop's own pauses and its returned counter are those of the throttle counter run over the direct entries |
| ScanProperties.ThrottleArith | indexer/indexer/indexer.js:120-126 | with `pauseAfter` ≥ 1, pauses·`pauseAfter` + final counter = start counter + direct qualifying files, and the final counter is below `pauseAfter` |
| ScanProperties.ThrottleAlways | indexer/indexer/indexer.js:123-126 | with `pauseAfter` ≤ 0 the throttle pauses after every entry and ends at 0 once it has passed one |
| ScanProperties.ThrottleQuotient | indexer/indexer/indexer.js:96-126 | from 0, the throttle pauses (direct count / `pauseAfter`) times and ends at direct count % `pauseAfter` |
| ScanProperties.ThrottleCount | indexer/indexer/indexer.js:94-129 | a normal return of a scan with `pauseAfter` ≥ 1 has taken (direct qualifying count / `pauseAfter`) pauses in its own loop and returns `fileCount` = that count % `pauseAfter`, which is below `pauseAfter` |
| ScanProperties.PauseAfterNonPositive | indexer/indexer/indexer.js:123-126 | with `pauseAfter` ≤ 0 the start directory's loop pauses once per entry and returns `fileCount` 0 |
| ScanProperties.EntriesNewFiles | indexer/indexer/indexer.js:117-118 | `new_files` keeps its value until the first direct qualifying file and is NaN from then on |
| ScanProperties.NewFilesOfScan | indexer/indexer/indexer.js:97-129 | a normal return reports `new_files` 0 without direct qualifying files and NaN otherwise |
| ScanProperties.StartPathNotListable | indexer/indexer/indexer.js:95 | a start path that is not a readable directory throws, with no row written and no pause taken |
| Indexer.Timer.Sleep | indexer/indexer/indexer.js:124 | a pause appends one entry, for that directory and duration, to the pause trace |
| Indexer.SearchFiles | indexer/indexer/indexer.js:94-130 | the loop leaves the table and pause trace of the specification scan and returns its tally or its error |
| Indexer.IndexFiles | indexer/indexer/indexer.js:46-66 | sets the flag, runs the configured scan and clears the flag on a normal return, resolving with `fileCount` and `new_files`; on failure the error propagates and the flag stays set; the job rows are untouched |
| Indexer.CleanupRunningJobs | indexer/indexer/indexer.js:132-138 | removes exactly the job rows marked running; the flag and the ids are untouched |
| Indexer.LogIndexingJob | indexer/indexer/indexer.js:15-23 | appends a job row under the next id with the given status, no end, no error and zero counts, and returns that id |
| Indexer.UpdateIndexingJob | indexer/indexer/indexer.js:36-43 | the rows with that id get the terminal fields; every other row stays |
| JobHistory.Filter | indexer/routes/indexer.js:101-108 | keeps exactly the rows whose status passes, in table order, so an ascending table stays ascending |
| JobHistory.Recent | indexer/routes/indexer.js:101-108 | the table most recent first, so ascending ids become descending |
| JobHistory.RecentAppend | indexer/indexer/indexer.js:15-16 | a newly opened job is listed first, ahead of every older job |
| JobHistory.CloseRows | indexer/indexer/indexer.js:38 | ids and start times are kept; every row with that id gets exactly the terminal status, end time, error and totals; every other row is unchanged; an ascending table stays ascending |
| JobHistory.History | indexer/routes/indexer.js:99-110 | fails exactly on a negative LIMIT or OFFSET; otherwise a page holds min(limit, max(0, selected - offset)) jobs, entry k being the selected job offset + k places from the newest, all rows of the table with the filtered status, most recent first |
| JobHistory.AdjacentHistoryPages | indexer/routes/indexer.js:99-110 | two consecutive pages of history make up the page twice as long that starts with the first |
| JobHistory.HistoryWithinTable | indexer/routes/indexer.js:101-108 | a page of history never holds more jobs than the table |
| JobHistory.CloseNewest | indexer/jobs/jobs.js:37-45 | closing the newest job of an ascending table changes only its last row |
| JobHistory.JobStore.IsIndexing | indexer/indexer/indexer.js:72-74 | returns the flag |
| JobHistory.JobStore.UpdateIndexingStatus | indexer/indexer/indexer.js:81-83 | sets the flag and touches nothing else |
| JobHistory.JobStore.DeleteRunningJobs | indexer/indexer/indexer.js:134 | deletes exactly the rows marked running |
| JobHistory.JobStore.InsertIndexingJob | indexer/indexer/indexer.js:17 | appends a row under the next serial id and returns that id |
| JobHistory.JobStore.UpdateIndexingJob | indexer/indexer/indexer.js:38 | closes the rows with that id |
| Jobs.ClosedJob | indexer/jobs/jobs.js:29-48 | the job a run leaves is completed exactly when the scan returned normally, with no error, the image count and the scan's `new_files`; otherwise it is failed, with the error message and zero counts |
| Jobs.RunOps | indexer/jobs/jobs.js:16-48 | a run writes: purge, set the flag, open the job, …, clear the flag (7 writes on success, 6 on failure) |
| Jobs.RunClearsFlag | indexer/jobs/jobs.js:38-48 | whatever came before, the flag is false after a run |
| Jobs.RunClosesOnce | indexer/jobs/jobs.js:37-45 | a run closes its job exactly once: as completed on success, as failed otherwise, never both |
| Jobs.RunLeavesNoRunningJob | indexer/jobs/jobs.js:16-45 | after a run no job row is marked running |
| Jobs.UnlistableStartPath | indexer/jobs/jobs.js:29-40 | an unlistable start path closes the job as failed with the listing error, and no image row is written |
| Jobs.StartScheduledJob | indexer/jobs/jobs.js:9-50 | while the flag is set, nothing changes; otherwise the table and pauses are those of the scan, the running jobs are replaced by the one closed job, the flag ends false and the writes are exactly `RunOps` |
| Jobs.OpenRun | indexer/jobs/jobs.js:16-23 | purges the running jobs, sets the flag and appends a running job under the next id |
| Jobs.CloseRun | indexer/jobs/jobs.js:29-48 | replaces the open job by its closed row and clears the flag |
| Jobs.Startup | indexer/index.js:41 | clears the flag and touches nothing else |
| Jobs.RecoverAndRun | indexer/jobs/jobs.js:9-23 | after the startup reset the next run is not skipped; it consumes one id, leaves no job running, keeps every earlier job that was not running, and ends with the flag cleared |
| LegacyIndexer.LegacySearchFiles | indexer/indexer.js:73-110 | the older loop leaves the same table and pauses as the specification scan and succeeds exactly when it does, with the same error otherwise; it returns no tally |
| LegacyIndexer.LegacyIndexFiles | indexer/indexer.js:54-61 | runs the configured scan and passes on nothing |
| FilesRoute.PlanSearch | indexer/routes/files.js:125-131 | refuses exactly a missing or empty query, with the 400 message; otherwise `page`, `limit` and `sort` default to 1, 10 and "asc", and the offset is `(page - 1) * limit` |
| FilesRoute.FileSearch | indexer/routes/files.js:123-145 | 400 exactly without a query; 500 exactly when the limit or offset is negative; otherwise a page of matching rows, `total` = the count for the same query, and `page` and `limit` echoed |
| FilesRoute.TotalIgnoresPaging | indexer/routes/files.js:133 | `total` depends on the query alone, not on page, limit or sort |
| FilesRoute.PageBelowOneFails | indexer/routes/files.js:131-132 | a page below 1 with a positive limit gives a 500 |
| FilesRoute.SearchPage | indexer/routes/files.js:125-140 | a valid page is that page of the store's name search |
| FilesRoute.NextPageContinues | indexer/routes/files.js:131-132 | the filenames of page n + 1 continue exactly where those of page n end |
| FilesRoute.FileCount | indexer/routes/files.js:25-34 | the count is the number of rows in `images` |
| IndexerRoute.HistoryFilter | indexer/routes/indexer.js:101-109 | `errors` == "true" selects failed jobs; otherwise `completed` == "true" selects completed ones; otherwise `running` == "true" selects running ones; otherwise all jobs (each case in both directions) |
| IndexerRoute.OnlyExactTrue | indexer/routes/indexer.js:101-105 | any value other than "true" reads as if the parameter were absent |
| IndexerRoute.IndexerHistory | indexer/routes/indexer.js:95-115 | listed exactly when limit and offset are non-negative, otherwise a 500; the page starts `(page - 1) * limit` jobs from the newest and holds min(limit, max(0, selected - offset)) jobs of the selected status, entry k being the job offset + k places from the newest |
| IndexerRoute.HistoryPage | indexer/routes/indexer.js:98-109 | page p ≥ 1 lists exactly the store's history query at offset (p - 1) · limit |
| IndexerRoute.NextHistoryPage | indexer/routes/indexer.js:98-110 | page n + 1 of the history continues exactly where page n ends |
| IndexerRoute.DefaultPage | indexer/routes/indexer.js:98-99 | without paging parameters the first ten selected jobs are listed (offset 0) |
| IndexerRoute.IndexerStatus | indexer/routes/indexer.js:25-34 | returns the store's indexing flag unchanged |

## Left out

- Concurrency: runs are sequential. The busy test and the flag update in
  `start_scheduled_job` are not atomic, and interleaved runs are not modelled.
- The cron registration and the Express, consign and swagger set-up are left out.
  `StartScheduledJob` is called directly.
- `setTimeout`: pauses go into a ghost trace and wall-clock time is not modelled.
  `new Date()` and `toISOString` timestamps are parameters (`started`, `now`, `ended`).
- `Images.Upsert`: the `indexed` column's `DEFAULT CURRENT_TIMESTAMP` is modelled as the
  one parameter `now` of a scan, so every row one scan inserts gets the same `indexed`.
  In the database each insert statement takes the clock afresh.
- The PostgreSQL connection, the DDL and failures of the store itself (lost
  connection and the like) are left out. `ImageStore` and `JobStore` never fail,
  except for the oversized `size` of an upsert and the negative LIMIT/OFFSET of a query.
- Logging is not modelled. This includes `logger.err` in `logIndexingJob` and
  `updateIndexingJob`, which is not a log4js method and would itself throw inside
  those catch blocks. Those catch blocks are unreachable here, because the store
  never fails.
- The job-history and flag operations of the store are not in the original source.
  `JobStore` gives them assumed semantics (see above). History order is by serial id,
  standing in for start time.
- `JobHistory.History`, `IndexerRoute.IndexerHistory`: most-recent-first is modelled
  as descending id, not as descending start time.
- SQL `LIKE` wildcards inside the user's query (`%`, `_`) and LIKE's default escape
  character `\` are taken as literal characters: the match is a plain substring test.
- `Paths.Lower`: `LOWER` and `toLowerCase` are modelled as ASCII only. There is no
  Unicode case mapping.
- Filenames are ordered byte-wise. Another collation is not modelled.
- `ImageQueries.SearchFilesByName`: rows with equal filenames come in one order among
  those ORDER BY allows. The model does not claim the database's tie order.
- `ImageQueries.AdjacentPages`, `FilesRoute.NextPageContinues`: stated on filenames
  only. PostgreSQL may order rows with equal filenames (the same name in several
  directories) differently for each LIMIT/OFFSET query, so which of those rows falls
  on which page, and whether one repeats or goes missing across pages, is not claimed.
- Query-string values (`page`, `limit`), configuration values and `parseInt` are taken
  as integers already: no coercion from strings, no NaN offsets.
- `count_all_images` and `count_files_by_name` return PostgreSQL's COUNT, which
  node-pg delivers as text. It is modelled as a number.
- `FilesRoute.FileSearch`: the 500 message is "Internal Server Error " followed by the
  store's error message. JavaScript's string form of the error object is not modelled.
- `Paths.JoinSplits`: `path.join` is modelled for a directory already
  in normal form and a single entry name. `..`, `.` and repeated separators are not
  normalised.
- Symlinks are not modelled: the tree is finite and acyclic by construction.
  `statSync` following links is not modelled.
- `ScanProperties.NestedPausesUseDefault`, `ScanProperties.EntriesPauseShape`,
  `ScanProperties.VisitPauseShape`, `ScanProperties.VisitOwnPauses`,
  `ScanProperties.EntriesThrottle`, `ScanProperties.ThrottleCount`,
  `ScanProperties.PauseAfterNonPositive`: these require every listed name to be
  non-empty and free of '/', as a filesystem lists it. That is what keeps a
  subdirectory's pauses apart from its parent's.
- `LegacyIndexer.LegacyIndexFiles`: the older `indexFiles` does not await
  `searchFiles`. The model runs the scan to completion inside the call. It does not
  model the scan going on in the background after the promise resolves, or the
  unhandled rejection a failed scan causes.
- `Images.UpsertIdempotent`: the claim is about the rows only. The SERIAL sequence
  still advances on the second upsert, because PostgreSQL draws the id before it
  detects the conflict.
- The store's integer columns other than `size` (the INTEGER range check of
  `insert_file_data`) are unbounded.
