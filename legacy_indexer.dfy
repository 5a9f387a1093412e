/**
 * The earlier, stand-alone scanner in indexer/indexer.js: the same walk, test,
 * upsert and throttle as the indexer's `searchFiles`, but it returns nothing, and
 * its `indexFiles` neither touches the indexing flag nor waits for the scan.
 */
module LegacyIndexer {
  import opened Wrappers
  import opened Paths
  import opened Images
  import opened ScanSpec
  import opened Indexer

  /**
   * `searchFiles(startPath, fileTypes, pauseAfter, pauseTimeSeconds)`: the scan of
   * ScanSpec without a tally; it resolves with nothing or rejects with the listing
   * or stat error.
   */
  method LegacySearchFiles(db: ImageStore, timer: Timer, startPath: string, node: Entry,
                           fileTypes: seq<string>, pauseAfter: int, pauseTimeSeconds: int, now: Timestamp)
    returns (r: Result<()>)
    requires db.Valid()
    modifies db, timer
    ensures db.Valid()
    ensures var s := ScanDir(startPath, node, Settings(fileTypes, pauseAfter, now), pauseTimeSeconds,
                             old(db.Snapshot()), old(timer.pauses));
            && db.Snapshot() == s.table && timer.pauses == s.pauses
            && (r.Success? <==> s.result.Success?)
            && (r.Failure? ==> r.error == s.result.error)
    decreases node
  {
    ghost var cfg := Settings(fileTypes, pauseAfter, now);
    ghost var goal := ScanDir(startPath, node, cfg, pauseTimeSeconds, db.Snapshot(), timer.pauses);
    match node
    case File(_, _) => return Failure(NotADirectory(startPath));
    case Unreadable(_, message) => return Failure(message);
    case Dir(_, files) =>
      var fileCount := 0;
      // The value the indexer's `new_files` would have; this version keeps none.
      ghost var newFiles := Num(0);
      var i := 0;
      while i < |files|
        invariant 0 <= i <= |files|
        invariant db.Valid()
        invariant ScanEntries(startPath, node, i, cfg, pauseTimeSeconds, db.Snapshot(), timer.pauses,
                              Tally(fileCount, newFiles)) == goal
      {
        var entry := files[i];
        var filePath := Join(startPath, entry.name);
        ghost var v := Visit(startPath, entry, cfg, pauseTimeSeconds, db.Snapshot(), timer.pauses, Tally(fileCount, newFiles));
        assert v.result.Success? ==>
          ScanEntries(startPath, node, i + 1, cfg, pauseTimeSeconds, v.table, v.pauses, v.result.value) == goal;
        match entry {
          case Unreadable(_, message) =>
            return Failure(message);
          case Dir(_, _) =>
            var sub := LegacySearchFiles(db, timer, filePath, entry, fileTypes, pauseAfter, DefaultPauseSeconds, now);
            if sub.Failure? {
              return sub;
            }
          case File(_, stat) =>
            if Qualifies(filePath, fileTypes) {
              db.InsertFileData(FileRecord(filePath, stat), now);
              newFiles := NaN;
              fileCount := fileCount + 1;
            }
        }
        if fileCount >= pauseAfter {
          timer.Sleep(pauseTimeSeconds, startPath);
          fileCount := 0;
        }
        assert db.Snapshot() == v.table && timer.pauses == v.pauses && v.result == Success(Tally(fileCount, newFiles));
        i := i + 1;
      }
      return Success(());
  }

  /**
   * `indexFiles()`: starts the scan from the configured start path and resolves
   * with nothing; a failure of the scan is not passed on.
   */
  method LegacyIndexFiles(db: ImageStore, timer: Timer, config: Config, root: Entry, now: Timestamp)
    requires db.Valid()
    modifies db, timer
    ensures db.Valid()
    ensures var s := ConfiguredScan(config, root, now, old(db.Snapshot()), old(timer.pauses));
            db.Snapshot() == s.table && timer.pauses == s.pauses
  {
    var ignored := LegacySearchFiles(db, timer, config.startPath, root, config.fileTypes, config.pauseAfter,
                                     config.pauseTimeSeconds, now);
  }
}
