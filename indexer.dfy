/**
 * The scanner and the indexing entry points: `searchFiles`, `indexFiles`,
 * `cleanupRunningJobs`, `logIndexingJob` and `updateIndexingJob`.
 */
module Indexer {
  import opened Wrappers
  import opened Paths
  import opened Images
  import opened ScanSpec
  import opened JobHistory

  /** `setTimeout`: each pause is recorded instead of waited out. */
  class Timer {
    ghost var pauses: seq<Pause>

    constructor ()
      ensures pauses == []
    {
      pauses := [];
    }

    method Sleep(seconds: int, ghost dir: string)
      modifies this
      ensures pauses == old(pauses) + [Pause(dir, seconds)]
    {
      pauses := pauses + [Pause(dir, seconds)];
    }
  }

  /**
   * `searchFiles(startPath, fileTypes, pauseAfter, pauseTimeSeconds)` on the entry
   * `node` found at `startPath`: lists it, upserts each qualifying file, recurses into
   * each subdirectory, pauses whenever the counter reaches `pauseAfter`.
   */
  method SearchFiles(db: ImageStore, timer: Timer, startPath: string, node: Entry,
                     fileTypes: seq<string>, pauseAfter: int, pauseTimeSeconds: int, now: Timestamp)
    returns (r: Result<Tally>)
    requires db.Valid()
    modifies db, timer
    ensures db.Valid()
    ensures var s := ScanDir(startPath, node, Settings(fileTypes, pauseAfter, now), pauseTimeSeconds,
                             old(db.Snapshot()), old(timer.pauses));
            db.Snapshot() == s.table && timer.pauses == s.pauses && r == s.result
    decreases node
  {
    ghost var cfg := Settings(fileTypes, pauseAfter, now);
    ghost var goal := ScanDir(startPath, node, cfg, pauseTimeSeconds, db.Snapshot(), timer.pauses);
    match node
    case File(_, _) => return Failure(NotADirectory(startPath));
    case Unreadable(_, message) => return Failure(message);
    case Dir(_, files) =>
      var fileCount := 0;
      var newFiles := Num(0);
      var i := 0;
      while i < |files|
        invariant 0 <= i <= |files|
        invariant db.Valid()
        invariant ScanEntries(startPath, node, i, cfg, pauseTimeSeconds, db.Snapshot(), timer.pauses,
                              Tally(fileCount, newFiles)) == goal
      {
        var entry := files[i];
        var filePath := Join(startPath, entry.name);
        ghost var v := Visit(startPath, entry, cfg, pauseTimeSeconds, db.Snapshot(), timer.pauses, Tally(fileCount, newFiles));
        assert v.result.Success? ==>
          ScanEntries(startPath, node, i + 1, cfg, pauseTimeSeconds, v.table, v.pauses, v.result.value) == goal;
        match entry {
          case Unreadable(_, message) =>
            return Failure(message);
          case Dir(_, _) =>
            var sub := SearchFiles(db, timer, filePath, entry, fileTypes, pauseAfter, DefaultPauseSeconds, now);
            if sub.Failure? {
              return sub;
            }
          case File(_, stat) =>
            if Qualifies(filePath, fileTypes) {
              db.InsertFileData(FileRecord(filePath, stat), now);
              newFiles := NaN;  // new_files += undefined
              fileCount := fileCount + 1;
            }
        }
        if fileCount >= pauseAfter {
          timer.Sleep(pauseTimeSeconds, startPath);
          fileCount := 0;
        }
        assert db.Snapshot() == v.table && timer.pauses == v.pauses && v.result == Success(Tally(fileCount, newFiles));
        i := i + 1;
      }
      return Success(Tally(fileCount, newFiles));
  }

  /** The indexer's configuration values. */
  datatype Config = Config(startPath: string, fileTypes: seq<string>, pauseAfter: int, pauseTimeSeconds: int)

  /** What `indexFiles` resolves with. */
  datatype IndexResult = IndexResult(indexedFiles: int, newFiles: JsNumber)

  /** The scan `indexFiles` runs from the configured start path. */
  function ConfiguredScan(config: Config, root: Entry, now: Timestamp, table: Table, pauses: seq<Pause>): Scan {
    ScanDir(config.startPath, root, Settings(config.fileTypes, config.pauseAfter, now), config.pauseTimeSeconds,
            table, pauses)
  }

  /**
   * `indexFiles()`: sets the indexing flag, scans from the configured start path
   * and clears the flag. A listing or stat failure propagates past the reset, so
   * the flag is left set.
   */
  method IndexFiles(store: JobStore, db: ImageStore, timer: Timer, config: Config, root: Entry, now: Timestamp)
    returns (r: Result<IndexResult>)
    requires store.Valid() && db.Valid()
    modifies store, db, timer
    ensures store.Valid() && db.Valid()
    ensures var s := ConfiguredScan(config, root, now, old(db.Snapshot()), old(timer.pauses));
            && db.Snapshot() == s.table && timer.pauses == s.pauses
            && (s.result.Success? ==> r == Success(IndexResult(s.result.value.fileCount, s.result.value.newFiles)))
            && (s.result.Failure? ==> r == Failure(s.result.error))
    ensures store.jobs == old(store.jobs) && store.nextId == old(store.nextId)
    ensures store.indexing == r.Failure?
    ensures store.ops == old(store.ops) + [SetIndexing(true)] + (if r.Success? then [SetIndexing(false)] else [])
  {
    store.UpdateIndexingStatus(true);
    var result := SearchFiles(db, timer, config.startPath, root, config.fileTypes, config.pauseAfter,
                              config.pauseTimeSeconds, now);
    if result.Failure? {
      return Failure(result.error);
    }
    var indexedFiles := result.value.fileCount;
    var newFiles := result.value.newFiles;
    store.UpdateIndexingStatus(false);
    return Success(IndexResult(indexedFiles, newFiles));
  }

  /** `cleanupRunningJobs()`: removes the job rows still marked running. */
  method CleanupRunningJobs(store: JobStore)
    requires store.Valid()
    modifies store
    ensures store.Valid()
    ensures store.jobs == WithoutRunning(old(store.jobs))
    ensures store.indexing == old(store.indexing) && store.nextId == old(store.nextId)
    ensures store.ops == old(store.ops) + [PurgeRunning]
  {
    store.DeleteRunningJobs();
  }

  /** `logIndexingJob(status)`: opens a job row with the default terminal fields and returns its id. */
  method LogIndexingJob(store: JobStore, status: Status, started: Timestamp) returns (id: nat)
    requires store.Valid()
    modifies store
    ensures store.Valid()
    ensures id == old(store.nextId) && store.nextId == id + 1 && store.indexing == old(store.indexing)
    ensures store.jobs == old(store.jobs) + [Job(id, status, started, None, None, 0, Num(0))]
    ensures store.ops == old(store.ops) + [OpenJob(id)]
  {
    id := store.InsertIndexingJob(status, started, None, None, 0, Num(0));
  }

  /** `updateIndexingJob(jobId, status, endTime, error, totalFiles, newFiles)`. */
  method UpdateIndexingJob(store: JobStore, id: nat, status: Status, ended: Option<string>,
                           error: Option<string>, totalFiles: int, newFiles: JsNumber)
    requires store.Valid()
    modifies store
    ensures store.Valid()
    ensures store.jobs == CloseRows(old(store.jobs), id, status, ended, error, totalFiles, newFiles)
    ensures store.indexing == old(store.indexing) && store.nextId == old(store.nextId)
    ensures store.ops == old(store.ops) + [CloseJob(id, status)]
  {
    store.UpdateIndexingJob(id, status, ended, error, totalFiles, newFiles);
  }
}
