/** The `/indexer/status` and `/indexer/history` routes. */
module IndexerRoute {
  import opened Wrappers
  import opened Paging
  import opened JobHistory

  /** The query string of `/indexer/history`; absent parameters are `None`. */
  datatype HistoryQuery = HistoryQuery(errors: Option<string>, completed: Option<string>, running: Option<string>,
                                       page: Option<int>, limit: Option<int>)

  datatype HistoryResponse =
    | Listed(history: seq<Job>)     // 200
    | ServerError(message: string)  // 500

  const InternalError := "Internal Server Error"

  /**
   * Which history query the route runs: failed jobs when `errors` is "true", else
   * completed jobs when `completed` is, else running jobs when `running` is, else all.
   */
  function HistoryFilter(q: HistoryQuery): (f: Option<Status>)
    ensures f == Some(Failed) <==> q.errors == Some("true")
    ensures f == Some(Completed) <==> q.errors != Some("true") && q.completed == Some("true")
    ensures f == Some(Running) <==>
              q.errors != Some("true") && q.completed != Some("true") && q.running == Some("true")
    ensures f == None <==>
              q.errors != Some("true") && q.completed != Some("true") && q.running != Some("true")
  {
    if q.errors == Some("true") then Some(Failed)
    else if q.completed == Some("true") then Some(Completed)
    else if q.running == Some("true") then Some(Running)
    else None
  }

  /** Only the exact text "true" switches a filter on: any other value reads as if it were absent. */
  lemma OnlyExactTrue(q: HistoryQuery, v: string)
    requires v != "true"
    ensures HistoryFilter(q.(errors := Some(v))) == HistoryFilter(q.(errors := None))
    ensures HistoryFilter(q.(completed := Some(v))) == HistoryFilter(q.(completed := None))
    ensures HistoryFilter(q.(running := Some(v))) == HistoryFilter(q.(running := None))
  {
  }

  /**
   * `GET /indexer/history`: one page of the selected history, most recent first,
   * with `page` and `limit` defaulting to 1 and 10, starting `(page - 1) * limit`
   * jobs from the newest; 500 when the store refuses the page.
   */
  function IndexerHistory(js: seq<Job>, q: HistoryQuery): (r: HistoryResponse)
    ensures var limit := q.limit.GetOr(10);
            var offset := PageOffset(q.page.GetOr(1), limit);
            && (r.Listed? <==> limit >= 0 && offset >= 0)
            && (r.ServerError? ==> r.message == InternalError)
    ensures var limit := q.limit.GetOr(10);
            r.Listed? ==>
              NewestFirstWindow(r.history, Selected(js, HistoryFilter(q)), limit, PageOffset(q.page.GetOr(1), limit))
    ensures r.Listed? ==>
              && |r.history| <= q.limit.GetOr(10)
              && (forall k | 0 <= k < |r.history| :: r.history[k] in js)
              && (HistoryFilter(q).Some? ==>
                    forall k | 0 <= k < |r.history| :: r.history[k].status == HistoryFilter(q).value)
    ensures r.Listed? && Ascending(js) ==> Descending(r.history)
  {
    var limit := q.limit.GetOr(10);
    match History(js, HistoryFilter(q), limit, PageOffset(q.page.GetOr(1), limit))
    case Failure(_) => ServerError(InternalError)
    case Success(history) => Listed(history)
  }

  /** Without paging parameters the first ten of the selected jobs are listed. */
  lemma DefaultPage(js: seq<Job>, q: HistoryQuery)
    requires q.page.None? && q.limit.None?
    ensures IndexerHistory(js, q) == Listed(History(js, HistoryFilter(q), 10, 0).value)
  {
    PageOffsetFacts(1, 10);
  }

  /** Page `page` of the route is the store's history query at offset `(page - 1) * limit`. */
  lemma HistoryPage(js: seq<Job>, q: HistoryQuery, page: int, limit: nat) returns (rows: seq<Job>)
    requires page >= 1 && q.page == Some(page) && q.limit == Some(limit)
    ensures History(js, HistoryFilter(q), limit, PageOffset(page, limit)) == Success(rows)
    ensures IndexerHistory(js, q) == Listed(rows)
  {
    PageOffsetFacts(page, limit);
    rows := History(js, HistoryFilter(q), limit, PageOffset(page, limit)).value;
  }

  /** Page `n + 1` of the history continues exactly where page `n` ends. */
  lemma NextHistoryPage(js: seq<Job>, q: HistoryQuery, page: int, limit: nat)
    requires page >= 1 && q.page == Some(page) && q.limit == Some(limit)
    ensures var a := IndexerHistory(js, q);
            var b := IndexerHistory(js, q.(page := Some(page + 1)));
            var ab := History(js, HistoryFilter(q), 2 * limit, PageOffset(page, limit));
            a.Listed? && b.Listed? && ab.Success? && a.history + b.history == ab.value
  {
    var f := HistoryFilter(q);
    var q2 := q.(page := Some(page + 1));
    var off := PageOffset(page, limit);
    PageOffsetFacts(page, limit);
    assert HistoryFilter(q2) == f;
    var x := HistoryPage(js, q, page, limit);
    var y := HistoryPage(js, q2, page + 1, limit);
    assert History(js, f, limit, off + limit) == Success(y);
    AdjacentHistoryPages(js, f, limit, off);
  }

  /** `GET /indexer/status`: the indexing flag as the store holds it. */
  method IndexerStatus(store: JobStore) returns (status: bool)
    ensures status == store.indexing
  {
    status := store.IsIndexing();
  }
}
