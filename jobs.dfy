/**
 * The scheduled indexing run `start_scheduled_job` and the reset of the indexing
 * flag that the server performs once it is listening.
 */
module Jobs {
  import opened Wrappers
  import opened Images
  import opened ImageQueries
  import opened ScanSpec
  import opened JobHistory
  import opened Indexer

  /**
   * The job row a run that got past the busy test leaves behind: completed with no
   * error, the image count after the scan and the scan's `new_files`; or failed with
   * the error's message and zero counts.
   */
  function ClosedJob(id: nat, started: Timestamp, ended: Timestamp, s: Scan): (j: Job)
    ensures j.id == id && j.started == started && j.ended == Some(ended)
    ensures j.status == Completed <==> s.result.Success?
    ensures j.status == Failed <==> s.result.Failure?
    ensures s.result.Success? ==>
              j.error == None && j.totalFiles == CountAllImages(s.table) && j.newFiles == s.result.value.newFiles
    ensures s.result.Failure? ==> j.error == Some(s.result.error) && j.totalFiles == 0 && j.newFiles == Num(0)
  {
    if s.result.Success? then
      Job(id, Completed, started, Some(ended), None, CountAllImages(s.table), s.result.value.newFiles)
    else
      Job(id, Failed, started, Some(ended), Some(s.result.error), 0, Num(0))
  }

  /** The writes of a run that got past the busy test, for job `id`; `ok` when the scan returned normally. */
  function RunOps(id: nat, ok: bool): (ops: seq<StoreOp>)
    ensures |ops| == if ok then 7 else 6
    ensures ops[0] == PurgeRunning && ops[1] == SetIndexing(true) && ops[2] == OpenJob(id)
    ensures ops[|ops| - 1] == SetIndexing(false)
  {
    [PurgeRunning, SetIndexing(true), OpenJob(id), SetIndexing(true)]
    + (if ok then [SetIndexing(false), CloseJob(id, Completed)] else [CloseJob(id, Failed)])
    + [SetIndexing(false)]
  }

  /** The value of the indexing flag after `ops`, starting from `flag`. */
  function FlagAfter(flag: bool, ops: seq<StoreOp>): bool
    decreases |ops|
  {
    if ops == [] then flag
    else if ops[|ops| - 1].SetIndexing? then ops[|ops| - 1].value
    else FlagAfter(flag, ops[..|ops| - 1])
  }

  /** How many times `ops` closes job `id`. */
  function Closes(ops: seq<StoreOp>, id: nat): nat
    decreases |ops|
  {
    if ops == [] then 0
    else (if ops[0].CloseJob? && ops[0].id == id then 1 else 0) + Closes(ops[1..], id)
  }

  lemma {:induction false} FlagAfterAppend(flag: bool, a: seq<StoreOp>, b: seq<StoreOp>)
    ensures FlagAfter(flag, a + b) == FlagAfter(FlagAfter(flag, a), b)
    decreases |b|
  {
    if b != [] {
      assert (a + b)[..|a + b| - 1] == a + b[..|b| - 1];
      FlagAfterAppend(flag, a, b[..|b| - 1]);
    } else {
      assert a + b == a;
    }
  }

  lemma {:induction false} ClosesAppend(a: seq<StoreOp>, b: seq<StoreOp>, id: nat)
    ensures Closes(a + b, id) == Closes(a, id) + Closes(b, id)
    decreases |a|
  {
    if a == [] {
      assert a + b == b;
    } else {
      assert (a + b)[1..] == a[1..] + b;
      ClosesAppend(a[1..], b, id);
    }
  }

  /** Whatever came before, a run leaves the indexing flag cleared. */
  lemma RunClearsFlag(flag: bool, before: seq<StoreOp>, id: nat, ok: bool)
    ensures FlagAfter(flag, before + RunOps(id, ok)) == false
  {
    FlagAfterAppend(flag, before, RunOps(id, ok));
  }

  /** A run closes its job exactly once, as completed when the scan returned normally and as failed otherwise. */
  lemma RunClosesOnce(before: seq<StoreOp>, id: nat, ok: bool)
    requires Closes(before, id) == 0
    ensures Closes(before + RunOps(id, ok), id) == 1
    ensures CloseJob(id, Completed) in RunOps(id, ok) <==> ok
    ensures CloseJob(id, Failed) in RunOps(id, ok) <==> !ok
  {
    ClosesAppend(before, RunOps(id, ok), id);
    var ops := RunOps(id, ok);
    var close := if ok then 5 else 4;
    forall k | 0 <= k < |ops| ensures ops[k].CloseJob? && ops[k].id == id <==> k == close {}
    ClosesCountsPositions(ops, id, close);
  }

  /** A trace in which exactly one position closes job `id` closes it once. */
  lemma {:induction false} ClosesCountsPositions(ops: seq<StoreOp>, id: nat, at: int)
    requires forall k | 0 <= k < |ops| :: (ops[k].CloseJob? && ops[k].id == id) <==> k == at
    ensures Closes(ops, id) == if 0 <= at < |ops| then 1 else 0
    decreases |ops|
  {
    if ops != [] {
      forall k | 0 <= k < |ops[1..]| ensures (ops[1..][k].CloseJob? && ops[1..][k].id == id) <==> k == at - 1 {
        assert ops[1..][k] == ops[k + 1];
      }
      ClosesCountsPositions(ops[1..], id, at - 1);
    }
  }

  /** After a run that got past the busy test no job row is left marked running. */
  lemma RunLeavesNoRunningJob(js: seq<Job>, id: nat, started: Timestamp, ended: Timestamp, s: Scan)
    ensures var after := WithoutRunning(js) + [ClosedJob(id, started, ended, s)];
            forall k | 0 <= k < |after| :: after[k].status != Running
  {
    var kept := WithoutRunning(js);
    var after := kept + [ClosedJob(id, started, ended, s)];
    forall k | 0 <= k < |after| ensures after[k].status != Running {
      if k < |kept| { assert after[k] == kept[k]; }
    }
  }

  /**
   * A start path that cannot be listed fails the run: the job closes as failed with
   * the listing error, and no image row is written.
   */
  lemma UnlistableStartPath(config: Config, root: Entry, now: Timestamp, table: Table, pauses: seq<Pause>,
                            id: nat, started: Timestamp, ended: Timestamp)
    requires !root.Dir?
    ensures var s := ConfiguredScan(config, root, now, table, pauses);
            var j := ClosedJob(id, started, ended, s);
            && s.table == table && s.pauses == pauses
            && j.status == Failed
            && j.error == Some(if root.File? then NotADirectory(config.startPath) else root.message)
  {
  }

  /**
   * `start_scheduled_job()`: skipped while the indexing flag is set; otherwise purges
   * the running jobs, sets the flag, opens a running job, runs `indexFiles`, closes
   * the job as completed or failed and clears the flag.
   */
  method StartScheduledJob(store: JobStore, db: ImageStore, timer: Timer, config: Config, root: Entry,
                           started: Timestamp, now: Timestamp, ended: Timestamp)
    requires store.Valid() && db.Valid()
    modifies store, db, timer
    ensures store.Valid() && db.Valid()
    ensures old(store.indexing) ==>
              && store.indexing && store.jobs == old(store.jobs) && store.nextId == old(store.nextId)
              && store.ops == old(store.ops)
              && db.Snapshot() == old(db.Snapshot()) && timer.pauses == old(timer.pauses)
    ensures !old(store.indexing) ==>
              var s := ConfiguredScan(config, root, now, old(db.Snapshot()), old(timer.pauses));
              var id := old(store.nextId);
              && db.Snapshot() == s.table && timer.pauses == s.pauses
              && store.jobs == WithoutRunning(old(store.jobs)) + [ClosedJob(id, started, ended, s)]
              && store.nextId == id + 1
              && !store.indexing
              && store.ops == old(store.ops) + RunOps(id, s.result.Success?)
  {
    var busy := store.IsIndexing();
    if busy {
      return;
    }
    ghost var s := ConfiguredScan(config, root, now, db.Snapshot(), timer.pauses);
    ghost var ops0 := store.ops;
    var id := OpenRun(store, started);
    var result := IndexFiles(store, db, timer, config, root, now);
    CloseRun(store, db, id, started, result, ended, s);
    RunTrace(ops0, id, result.Success?);
  }

  /** The writes of OpenRun, IndexFiles and CloseRun, one after the other, are those of RunOps. */
  lemma RunTrace(before: seq<StoreOp>, id: nat, ok: bool)
    ensures before + [PurgeRunning, SetIndexing(true), OpenJob(id)]
            + ([SetIndexing(true)] + (if ok then [SetIndexing(false)] else []))
            + [CloseJob(id, if ok then Completed else Failed), SetIndexing(false)]
            == before + RunOps(id, ok)
  {
  }

  /** The start of a run: purge the running jobs, set the flag, open a running job. */
  method OpenRun(store: JobStore, started: Timestamp) returns (id: nat)
    requires store.Valid()
    modifies store
    ensures store.Valid()
    ensures id == old(store.nextId) && store.nextId == id + 1 && store.indexing
    ensures store.jobs == WithoutRunning(old(store.jobs)) + [Job(id, Running, started, None, None, 0, Num(0))]
    ensures store.ops == old(store.ops) + [PurgeRunning, SetIndexing(true), OpenJob(id)]
  {
    CleanupRunningJobs(store);
    store.UpdateIndexingStatus(true);
    id := LogIndexingJob(store, Running, started);
  }

  /**
   * The end of a run for the scan `s` that `indexFiles` reported as `result`: close
   * the newest job as completed or failed, then clear the flag.
   */
  method CloseRun(store: JobStore, db: ImageStore, id: nat, started: Timestamp, result: Result<IndexResult>,
                  ended: Timestamp, ghost s: Scan)
    requires store.Valid() && db.Valid() && db.Snapshot() == s.table
    requires s.result.Success? ==> result == Success(IndexResult(s.result.value.fileCount, s.result.value.newFiles))
    requires s.result.Failure? ==> result == Failure(s.result.error)
    requires |store.jobs| > 0 && store.jobs[|store.jobs| - 1] == Job(id, Running, started, None, None, 0, Num(0))
    requires forall k | 0 <= k < |store.jobs| - 1 :: store.jobs[k].id < id
    modifies store
    ensures store.Valid()
    ensures store.jobs == old(store.jobs)[..|old(store.jobs)| - 1] + [ClosedJob(id, started, ended, s)]
    ensures store.nextId == old(store.nextId) && !store.indexing
    ensures store.ops == old(store.ops) + [CloseJob(id, if result.Success? then Completed else Failed), SetIndexing(false)]
  {
    ghost var kept := store.jobs[..|store.jobs| - 1];
    ghost var job := store.jobs[|store.jobs| - 1];
    assert store.jobs == kept + [job];
    if result.Failure? {
      var unusedTotal := CountAllImages(db.Snapshot());
      CloseNewest(kept, job, Failed, Some(ended), Some(result.error), 0, Num(0));
      UpdateIndexingJob(store, id, Failed, Some(ended), Some(result.error), 0, Num(0));
      store.UpdateIndexingStatus(false);
      return;
    }
    var totalFiles := CountAllImages(db.Snapshot());
    CloseNewest(kept, job, Completed, Some(ended), None, totalFiles, result.value.newFiles);
    UpdateIndexingJob(store, id, Completed, Some(ended), None, totalFiles, result.value.newFiles);
    store.UpdateIndexingStatus(false);
  }

  /** The reset of the indexing flag the server performs once it is listening. */
  method Startup(store: JobStore)
    requires store.Valid()
    modifies store
    ensures store.Valid()
    ensures !store.indexing && store.jobs == old(store.jobs) && store.nextId == old(store.nextId)
    ensures store.ops == old(store.ops) + [SetIndexing(false)]
  {
    store.UpdateIndexingStatus(false);
  }

  /**
   * Recovery from a process that died mid-run, leaving the flag set and a job marked
   * running: after the startup reset the next scheduled run is not skipped, it
   * removes the stale job before opening its own, and it leaves no job running.
   */
  method RecoverAndRun(store: JobStore, db: ImageStore, timer: Timer, config: Config, root: Entry,
                       started: Timestamp, now: Timestamp, ended: Timestamp)
    requires store.Valid() && db.Valid()
    modifies store, db, timer
    ensures store.Valid() && db.Valid()
    ensures store.nextId == old(store.nextId) + 1 && !store.indexing
    ensures forall k | 0 <= k < |store.jobs| :: store.jobs[k].status != Running
    ensures forall k | 0 <= k < |old(store.jobs)| && old(store.jobs)[k].status != Running ::
              old(store.jobs)[k] in store.jobs
  {
    Startup(store);
    ghost var before := store.jobs;
    ghost var s := ConfiguredScan(config, root, now, db.Snapshot(), timer.pauses);
    StartScheduledJob(store, db, timer, config, root, started, now, ended);
    RunLeavesNoRunningJob(before, old(store.nextId), started, ended, s);
  }
}
