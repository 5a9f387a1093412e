/** SQL `LIMIT limit OFFSET offset` as PostgreSQL evaluates it on an ordered result. */
module Paging {
  import opened Wrappers

  function Min(a: int, b: int): int { if a <= b then a else b }
  function Max(a: int, b: int): int { if a <= b then b else a }

  /** The rows that remain after skipping `offset` rows and keeping at most `limit`. */
  function Window<T>(s: seq<T>, limit: nat, offset: nat): seq<T> {
    var from := Min(offset, |s|);
    s[from..Min(from + limit, |s|)]
  }

  /** LIMIT/OFFSET with PostgreSQL's errors for negative values; the executor checks OFFSET first. */
  function Page<T>(s: seq<T>, limit: int, offset: int): Result<seq<T>> {
    if offset < 0 then Failure("OFFSET must not be negative")
    else if limit < 0 then Failure("LIMIT must not be negative")
    else Success(Window(s, limit, offset))
  }

  /** A window holds exactly the rows at positions offset, offset + 1, ... that exist, up to `limit`. */
  lemma WindowShape<T>(s: seq<T>, limit: nat, offset: nat)
    ensures |Window(s, limit, offset)| == Min(limit, Max(0, |s| - offset))
    ensures forall i :: 0 <= i < |Window(s, limit, offset)| ==> Window(s, limit, offset)[i] == s[offset + i]
  {
  }

  /** Two consecutive pages of size `limit` make up the page of size 2 * `limit` that starts with the first. */
  lemma AdjacentWindows<T>(s: seq<T>, limit: nat, offset: nat)
    ensures Window(s, limit, offset) + Window(s, limit, offset + limit) == Window(s, 2 * limit, offset)
  {
    var a := Min(offset, |s|);
    var b := Min(a + limit, |s|);
    var c := Min(b + limit, |s|);
    assert Min(offset + limit, |s|) == b;
    assert s[a..b] + s[b..c] == s[a..c];
  }

  /**
   * The row offset of page `page` (counted from 1) when each page holds `limit`
   * rows, `(page - 1) * limit` (PageOffsetIsProduct), written as one step of
   * `limit` per page so that no product of two unknowns appears.
   */
  function PageOffset(page: int, limit: int): int
    decreases if page >= 1 then page - 1 else 1 - page
  {
    if page == 1 then 0
    else if page > 1 then PageOffset(page - 1, limit) + limit
    else PageOffset(page + 1, limit) - limit
  }

  lemma {:induction false} PageOffsetIsProduct(page: int, limit: int)
    ensures PageOffset(page, limit) == (page - 1) * limit
    decreases if page >= 1 then page - 1 else 1 - page
  {
    if page > 1 {
      PageOffsetIsProduct(page - 1, limit);
      assert (page - 1) * limit == (page - 2) * limit + limit;
    } else if page < 1 {
      PageOffsetIsProduct(page + 1, limit);
      assert (page - 1) * limit == page * limit - limit;
    }
  }

  /**
   * Pages counted from 1 start at offset 0 and follow one another without gap or
   * overlap; with a positive `limit`, a page number below 1 gives a negative offset.
   */
  lemma PageOffsetFacts(page: int, limit: int)
    ensures PageOffset(1, limit) == 0
    ensures PageOffset(page + 1, limit) == PageOffset(page, limit) + limit
    ensures limit > 0 ==> (PageOffset(page, limit) >= 0 <==> page >= 1)
    ensures page >= 1 && limit >= 0 ==> PageOffset(page, limit) >= 0
  {
    PageOffsetIsProduct(page, limit);
    PageOffsetIsProduct(page + 1, limit);
    assert (page + 1 - 1) * limit == (page - 1) * limit + limit;
    if limit > 0 && page < 1 {
      assert (1 - page) * limit >= limit;
    }
    if page >= 1 && limit >= 0 {
      assert (page - 1) * limit >= 0;
    }
  }
}
