/** The `/file/count` and `/file/search` routes. */
module FilesRoute {
  import opened Wrappers
  import opened Paging
  import opened Images
  import opened ImageQueries

  /** The query string of `/file/search`; absent parameters are `None`. */
  datatype SearchQuery = SearchQuery(query: Option<string>, page: Option<int>, limit: Option<int>, sort: Option<string>)

  /** What the route hands to the store: text, LIMIT, OFFSET and order, plus the page it echoes. */
  datatype SearchPlan = SearchPlan(query: string, page: int, limit: int, offset: int, sort: string)

  datatype SearchResponse =
    | BadRequest(message: string)                                  // 400
    | ServerError(message: string)                                 // 500
    | Found(results: seq<Row>, total: nat, page: int, limit: int)  // 200

  const QueryRequired := "Query parameter \"query\" is required"

  /** The start of the 500 message; the store's error text follows it. */
  const InternalError := "Internal Server Error "

  /**
   * Reads the query string: a missing or empty `query` is refused; `page`, `limit`
   * and `sort` default to 1, 10 and "asc"; the offset is `(page - 1) * limit`.
   */
  function PlanSearch(q: SearchQuery): (r: Result<SearchPlan>)
    ensures r.Failure? <==> q.query.None? || q.query == Some("")
    ensures r.Failure? ==> r.error == QueryRequired
    ensures r.Success? ==>
              && r.value.query == q.query.value
              && r.value.page == q.page.GetOr(1) && r.value.limit == q.limit.GetOr(10)
              && r.value.sort == q.sort.GetOr("asc")
              && r.value.offset == PageOffset(r.value.page, r.value.limit)
  {
    if q.query.None? || q.query.value == "" then Failure(QueryRequired)
    else
      var page := q.page.GetOr(1);
      var limit := q.limit.GetOr(10);
      Success(SearchPlan(q.query.value, page, limit, PageOffset(page, limit), q.sort.GetOr("asc")))
  }

  /**
   * `GET /file/search`: 400 without a query; otherwise one page of the name search
   * and the count of all matches, or 500 when the store refuses the page.
   */
  ghost function FileSearch(t: Table, q: SearchQuery): (r: SearchResponse)
    ensures r.BadRequest? <==> q.query.None? || q.query == Some("")
    ensures r.Found? ==>
              && r.total == CountFilesByName(t, q.query.value)
              && |r.results| <= r.total
              && |r.results| <= r.limit
              && r.page == q.page.GetOr(1) && r.limit == q.limit.GetOr(10)
              && forall i | 0 <= i < |r.results| :: r.results[i] in t.rows.Values
                                                  && Matches(r.results[i].filename, q.query.value)
    ensures r.ServerError? <==>
              PlanSearch(q).Success? && (PlanSearch(q).value.limit < 0 || PlanSearch(q).value.offset < 0)
    ensures r.BadRequest? ==> r.message == QueryRequired
    ensures r.ServerError? ==> InternalError <= r.message
  {
    match PlanSearch(q)
    case Failure(e) => BadRequest(e)
    case Success(plan) =>
      match SearchFilesByName(t, plan.query, plan.limit, plan.offset, plan.sort)
      case Failure(e) => ServerError(InternalError + e)
      case Success(results) => Found(results, CountFilesByName(t, plan.query), plan.page, plan.limit)
  }

  /** `total` depends on the query text alone, not on page, limit or sort. */
  lemma TotalIgnoresPaging(t: Table, q1: SearchQuery, q2: SearchQuery)
    requires q1.query == q2.query
    requires FileSearch(t, q1).Found? && FileSearch(t, q2).Found?
    ensures FileSearch(t, q1).total == FileSearch(t, q2).total
  {
  }

  /** Page 0 and below, with a positive limit, is refused by the store with a 500. */
  lemma PageBelowOneFails(t: Table, q: SearchQuery)
    requires q.query.Some? && q.query.value != ""
    requires q.page.GetOr(1) < 1 && q.limit.GetOr(10) > 0
    ensures FileSearch(t, q).ServerError?
  {
    PageOffsetFacts(q.page.GetOr(1), q.limit.GetOr(10));
  }

  /**
   * Page `n + 1` continues exactly where page `n` ends, counted in filenames: which
   * of several rows with one filename falls on which page is the store's choice.
   */
  lemma NextPageContinues(t: Table, text: string, page: int, limit: nat, sort: Option<string>)
    requires text != "" && page >= 1
    ensures var a := FileSearch(t, SearchQuery(Some(text), Some(page), Some(limit), sort));
            var b := FileSearch(t, SearchQuery(Some(text), Some(page + 1), Some(limit), sort));
            var ab := SearchFilesByName(t, text, 2 * limit, PageOffset(page, limit), sort.GetOr("asc"));
            a.Found? && b.Found? && ab.Success? && Filenames(a.results) + Filenames(b.results) == Filenames(ab.value)
  {
    var off := PageOffset(page, limit);
    PageOffsetFacts(page, limit);
    var ra := SearchPage(t, text, page, limit, off, sort);
    var rb := SearchPage(t, text, page + 1, limit, PageOffset(page + 1, limit), sort);
    assert FileSearch(t, SearchQuery(Some(text), Some(page), Some(limit), sort)).results == ra;
    assert FileSearch(t, SearchQuery(Some(text), Some(page + 1), Some(limit), sort)).results == rb;
    ConcatPages(t, text, limit, off, PageOffset(page + 1, limit), sort.GetOr("asc"), ra, rb);
  }

  /** The filenames of two pages of the name search found one after the other are those of the page twice as long. */
  lemma ConcatPages(t: Table, text: string, limit: nat, off: nat, next: int, order: string, ra: seq<Row>, rb: seq<Row>)
    requires next == off + limit
    requires SearchFilesByName(t, text, limit, off, order) == Success(ra)
    requires SearchFilesByName(t, text, limit, next, order) == Success(rb)
    ensures SearchFilesByName(t, text, 2 * limit, off, order).Success?
    ensures Filenames(ra) + Filenames(rb) == Filenames(SearchFilesByName(t, text, 2 * limit, off, order).value)
  {
    var so := SearchOrder(t, text, order);
    SearchOrderIsStoreOrder(t, text, order);
    assert Filenames(ra) == NamesAt(t.rows, Window(so, limit, off)) by {
      PageNamesAnyOrder(t, text, limit, off, order, so);
    }
    assert Filenames(rb) == NamesAt(t.rows, Window(so, limit, off + limit)) by {
      PageNamesAnyOrder(t, text, limit, off + limit, order, so);
    }
    var ab := SearchFilesByName(t, text, 2 * limit, off, order);
    assert ab.Success? && Filenames(ab.value) == NamesAt(t.rows, Window(so, 2 * limit, off)) by {
      PageNamesAnyOrder(t, text, 2 * limit, off, order, so);
    }
    AdjacentPages(t, text, limit, off, order, so, so, so);
  }

  /** Page `page` of a search for `text`, which starts at `offset`, is that page of the store's name search. */
  lemma SearchPage(t: Table, text: string, page: int, limit: nat, offset: int, sort: Option<string>)
    returns (rows: seq<Row>)
    requires text != "" && page >= 1 && offset == PageOffset(page, limit)
    ensures SearchFilesByName(t, text, limit, offset, sort.GetOr("asc")) == Success(rows)
    ensures FileSearch(t, SearchQuery(Some(text), Some(page), Some(limit), sort))
            == Found(rows, CountFilesByName(t, text), page, limit)
  {
    PageOffsetFacts(page, limit);
    rows := SearchFilesByName(t, text, limit, offset, sort.GetOr("asc")).value;
  }

  /** `GET /file/count`: the number of rows in the images table. */
  function FileCount(t: Table): (count: nat)
    ensures count == |t.rows|
  {
    CountAllImages(t)
  }
}
