/**
 * The job-history table and the singleton indexer-state flag of the persistent
 * store, as the indexer and its routes use them: `is_indexing`,
 * `update_indexing_status`, `delete_running_jobs`, `insert_indexing_job`,
 * `update_indexing_job` and the four paginated history queries. Job ids come from
 * a serial column, so they grow with every insert; history is listed most recent
 * first.
 */
module JobHistory {
  import opened Wrappers
  import opened Paging

  datatype Status = Running | Completed | Failed

  /** One row of the job-history table. */
  datatype Job = Job(id: nat, status: Status, started: string, ended: Option<string>,
                     error: Option<string>, totalFiles: int, newFiles: JsNumber)

  /** The writes a caller makes to the store, in order. */
  datatype StoreOp = SetIndexing(value: bool) | PurgeRunning | OpenJob(id: nat) | CloseJob(id: nat, status: Status)

  /** Ids strictly increase along the table, as a serial column hands them out. */
  predicate Ascending(js: seq<Job>) {
    forall a, b | 0 <= a < b < |js| :: js[a].id < js[b].id
  }

  predicate Descending(js: seq<Job>) {
    forall a, b | 0 <= a < b < |js| :: js[a].id > js[b].id
  }

  /** The rows whose status satisfies `keep`, in table order. */
  function Filter(js: seq<Job>, keep: Status -> bool): (r: seq<Job>)
    ensures forall k | 0 <= k < |r| :: keep(r[k].status) && r[k] in js
    ensures forall k | 0 <= k < |js| :: keep(js[k].status) ==> js[k] in r
    ensures Ascending(js) ==> Ascending(r)
    decreases |js|
  {
    if js == [] then []
    else
      var rest := Filter(js[1..], keep);
      assert forall k | 0 <= k < |rest| :: rest[k] in js[1..];
      FilterStepAscending(js, rest);
      if keep(js[0].status) then [js[0]] + rest else rest
  }

  /** Keeping or dropping the first row of an ascending table leaves the kept rows ascending. */
  lemma FilterStepAscending(js: seq<Job>, rest: seq<Job>)
    requires js != [] && forall k | 0 <= k < |rest| :: rest[k] in js[1..]
    requires Ascending(js[1..]) ==> Ascending(rest)
    ensures Ascending(js) ==> Ascending(rest) && Ascending([js[0]] + rest)
  {
    if Ascending(js) {
      var tail := js[1..];
      forall a, b | 0 <= a < b < |tail| ensures tail[a].id < tail[b].id {
        assert tail[a] == js[a + 1] && tail[b] == js[b + 1];
      }
      forall k | 0 <= k < |rest| ensures js[0].id < rest[k].id {
        var j :| 0 <= j < |tail| && tail[j] == rest[k];
        assert tail[j] == js[j + 1];
      }
      var c := [js[0]] + rest;
      forall a, b | 0 <= a < b < |c| ensures c[a].id < c[b].id {
        if a == 0 { assert c[b] == rest[b - 1]; } else { assert c[a] == rest[a - 1] && c[b] == rest[b - 1]; }
      }
    }
  }

  /** What `delete_running_jobs` leaves: every row not marked running. */
  function WithoutRunning(js: seq<Job>): seq<Job> {
    Filter(js, s => s != Running)
  }

  function OfStatus(js: seq<Job>, status: Status): seq<Job> {
    Filter(js, s => s == status)
  }

  /** The table most recent first. */
  function Recent(js: seq<Job>): (r: seq<Job>)
    ensures |r| == |js|
    ensures forall k | 0 <= k < |r| :: r[k] == js[|js| - 1 - k]
    ensures Ascending(js) ==> Descending(r)
  {
    seq(|js|, k requires 0 <= k < |js| => js[|js| - 1 - k])
  }

  /** A job appended to the table is the first one listed, ahead of all the others. */
  lemma RecentAppend(js: seq<Job>, j: Job)
    ensures Recent(js + [j]) == [j] + Recent(js)
  {
    assert forall k | 0 < k < |js| + 1 :: Recent(js + [j])[k] == Recent(js)[k - 1];
  }

  /** `update_indexing_job`: the rows with that id get the terminal fields, the others stay. */
  function CloseRows(js: seq<Job>, id: nat, status: Status, ended: Option<string>,
                     error: Option<string>, totalFiles: int, newFiles: JsNumber): (r: seq<Job>)
    ensures |r| == |js|
    ensures forall k | 0 <= k < |js| :: r[k].id == js[k].id && r[k].started == js[k].started
    ensures forall k | 0 <= k < |js| :: js[k].id != id ==> r[k] == js[k]
    ensures forall k | 0 <= k < |js| :: js[k].id == id ==>
              && r[k].status == status && r[k].ended == ended && r[k].error == error
              && r[k].totalFiles == totalFiles && r[k].newFiles == newFiles
    ensures Ascending(js) ==> Ascending(r)
  {
    seq(|js|, k requires 0 <= k < |js| =>
      if js[k].id == id
      then js[k].(status := status, ended := ended, error := error, totalFiles := totalFiles, newFiles := newFiles)
      else js[k])
  }

  /** The rows a history query lists before paging: all of them, or those of one status. */
  function Selected(js: seq<Job>, filter: Option<Status>): seq<Job> {
    if filter.None? then js else OfStatus(js, filter.value)
  }

  /**
   * The history queries: `get_failed_jobs`, `get_completed_jobs`,
   * `get_running_jobs` (filter `Some(status)`) and `get_indexing_history` (filter
   * `None`), each most recent first with LIMIT and OFFSET: entry `k` of a page is
   * the selected row `offset + k` places from the newest.
   */
  /**
   * `page` is the window of `limit` jobs of `sel` that starts `offset` jobs from the
   * newest: as many as remain, entry `k` being the job `offset + k` places from the end.
   */
  predicate NewestFirstWindow(page: seq<Job>, sel: seq<Job>, limit: int, offset: int) {
    && 0 <= limit && 0 <= offset
    && |page| == Min(limit, Max(0, |sel| - offset))
    && forall k | 0 <= k < |page| :: offset + k < |sel| && page[k] == sel[|sel| - 1 - (offset + k)]
  }

  function History(js: seq<Job>, filter: Option<Status>, limit: int, offset: int): (r: Result<seq<Job>>)
    ensures r.Success? <==> limit >= 0 && offset >= 0
    ensures r.Success? ==> NewestFirstWindow(r.value, Selected(js, filter), limit, offset)
    ensures r.Success? ==>
              && (forall k | 0 <= k < |r.value| :: r.value[k] in js)
              && (filter.Some? ==> forall k | 0 <= k < |r.value| :: r.value[k].status == filter.value)
    ensures r.Success? && Ascending(js) ==> Descending(r.value)
  {
    var selected := Selected(js, filter);
    var recent := Recent(selected);
    PageOfRecent(selected, limit, offset);
    Page(recent, limit, offset)
  }

  lemma PageOfRecent(selected: seq<Job>, limit: int, offset: int)
    ensures var r := Page(Recent(selected), limit, offset);
            r.Success? ==>
              && NewestFirstWindow(r.value, selected, limit, offset)
              && (forall k | 0 <= k < |r.value| :: r.value[k] in selected)
              && (Ascending(selected) ==> Descending(r.value))
  {
    var recent := Recent(selected);
    var r := Page(recent, limit, offset);
    if r.Success? {
      WindowShape(recent, limit, offset);
      assert forall k | 0 <= k < |r.value| :: r.value[k] == recent[offset + k];
      assert forall k | 0 <= k < |recent| :: recent[k] in selected;
    }
  }

  /** A page of history never holds more jobs than the filtered history has. */
  lemma HistoryWithinTable(js: seq<Job>, filter: Option<Status>, limit: int, offset: int)
    requires History(js, filter, limit, offset).Success?
    ensures |History(js, filter, limit, offset).value| <= |js|
  {
    if filter.Some? { FilterShrinks(js, s => s == filter.value); }
  }

  /** Two consecutive pages of history make up the page twice as long that starts with the first. */
  lemma AdjacentHistoryPages(js: seq<Job>, filter: Option<Status>, limit: nat, offset: nat)
    ensures History(js, filter, limit, offset).value + History(js, filter, limit, offset + limit).value
            == History(js, filter, 2 * limit, offset).value
  {
    AdjacentWindows(Recent(Selected(js, filter)), limit, offset);
  }

  lemma {:induction false} FilterShrinks(js: seq<Job>, keep: Status -> bool)
    ensures |Filter(js, keep)| <= |js|
    decreases |js|
  {
    if js != [] { FilterShrinks(js[1..], keep); }
  }

  /** In an ascending table the newest row is last, and its id is above every other. */
  lemma CloseNewest(js: seq<Job>, j: Job, status: Status, ended: Option<string>,
                    error: Option<string>, totalFiles: int, newFiles: JsNumber)
    requires forall k | 0 <= k < |js| :: js[k].id < j.id
    ensures CloseRows(js + [j], j.id, status, ended, error, totalFiles, newFiles)
            == js + [j.(status := status, ended := ended, error := error, totalFiles := totalFiles, newFiles := newFiles)]
  {
  }

  /** The job-history table and the indexer-state flag. */
  class JobStore {
    var indexing: bool
    var jobs: seq<Job>
    var nextId: nat
    /** Every write made through this object, in order. */
    ghost var ops: seq<StoreOp>

    ghost predicate Valid()
      reads this
    {
      Ascending(jobs) && forall k | 0 <= k < |jobs| :: jobs[k].id < nextId
    }

    /** The store as a new process finds it: whatever an earlier process left. */
    constructor (indexing: bool, jobs: seq<Job>, nextId: nat)
      requires Ascending(jobs) && forall k | 0 <= k < |jobs| :: jobs[k].id < nextId
      ensures Valid()
      ensures this.indexing == indexing && this.jobs == jobs && this.nextId == nextId && ops == []
    {
      this.indexing := indexing;
      this.jobs := jobs;
      this.nextId := nextId;
      ops := [];
    }

    /** `is_indexing`. */
    method IsIndexing() returns (b: bool)
      ensures b == indexing
    {
      b := indexing;
    }

    /** `update_indexing_status(value)`. */
    method UpdateIndexingStatus(value: bool)
      requires Valid()
      modifies this
      ensures Valid()
      ensures indexing == value && jobs == old(jobs) && nextId == old(nextId)
      ensures ops == old(ops) + [SetIndexing(value)]
    {
      indexing := value;
      ops := ops + [SetIndexing(value)];
    }

    /** `delete_running_jobs`. */
    method DeleteRunningJobs()
      requires Valid()
      modifies this
      ensures Valid()
      ensures jobs == WithoutRunning(old(jobs)) && indexing == old(indexing) && nextId == old(nextId)
      ensures ops == old(ops) + [PurgeRunning]
    {
      jobs := WithoutRunning(jobs);
      ops := ops + [PurgeRunning];
    }

    /** `insert_indexing_job(...)`: appends a row under the next serial id and returns that id. */
    method InsertIndexingJob(status: Status, started: string, ended: Option<string>,
                             error: Option<string>, totalFiles: int, newFiles: JsNumber)
      returns (id: nat)
      requires Valid()
      modifies this
      ensures Valid()
      ensures id == old(nextId) && nextId == id + 1 && indexing == old(indexing)
      ensures jobs == old(jobs) + [Job(id, status, started, ended, error, totalFiles, newFiles)]
      ensures ops == old(ops) + [OpenJob(id)]
    {
      id := nextId;
      jobs := jobs + [Job(id, status, started, ended, error, totalFiles, newFiles)];
      nextId := nextId + 1;
      ops := ops + [OpenJob(id)];
    }

    /** `update_indexing_job(...)`. */
    method UpdateIndexingJob(id: nat, status: Status, ended: Option<string>,
                             error: Option<string>, totalFiles: int, newFiles: JsNumber)
      requires Valid()
      modifies this
      ensures Valid()
      ensures jobs == CloseRows(old(jobs), id, status, ended, error, totalFiles, newFiles)
      ensures indexing == old(indexing) && nextId == old(nextId)
      ensures ops == old(ops) + [CloseJob(id, status)]
    {
      jobs := CloseRows(jobs, id, status, ended, error, totalFiles, newFiles);
      ops := ops + [CloseJob(id, status)];
    }
  }
}
