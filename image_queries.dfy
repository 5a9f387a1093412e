/**
 * The read-only queries on `images`: `count_all_images`, `search_files_by_name` and
 * `count_files_by_name`. Filenames are ordered byte-wise (the "C" collation); rows
 * with equal filenames come in an order the query leaves open.
 */
module ImageQueries {
  import opened Wrappers
  import opened Paths
  import opened Paging
  import opened Images

  /** `SELECT COUNT(*) FROM images`. */
  function CountAllImages(t: Table): nat {
    |t.rows|
  }

  /** An upsert that stores a new key adds one to the count, any other upsert none. */
  lemma CountAfterUpsert(t: Table, d: FileData, now: Timestamp)
    ensures CountAllImages(Upsert(t, d, now)) ==
            CountAllImages(t) + (if d.size <= MaxInteger && KeyOf(d) !in t.rows then 1 else 0)
  {
    if d.size <= MaxInteger { UpsertCount(t, d, now); }
  }

  /** Byte-wise lexicographic order on names. */
  predicate NameLe(a: string, b: string)
    decreases |a|
  {
    a == [] || (b != [] && (a[0] < b[0] || (a[0] == b[0] && NameLe(a[1..], b[1..]))))
  }

  lemma {:induction false} NameLeTotal(a: string, b: string)
    ensures NameLe(a, b) || NameLe(b, a)
    decreases |a|
  {
    if a != [] && b != [] && a[0] == b[0] {
      NameLeTotal(a[1..], b[1..]);
    }
  }

  lemma {:induction false} NameLeTransitive(a: string, b: string, c: string)
    requires NameLe(a, b) && NameLe(b, c)
    ensures NameLe(a, c)
    decreases |a|
  {
    if a != [] && a[0] == b[0] && b[0] == c[0] {
      NameLeTransitive(a[1..], b[1..], c[1..]);
    }
  }

  /** `x` may come before `y` under ORDER BY filename ASC, or DESC when `desc`. */
  predicate InOrder(x: string, y: string, desc: bool) {
    if desc then NameLe(y, x) else NameLe(x, y)
  }

  /** The filename of `r` contains `q`, both lower-cased: `LOWER(filename) LIKE LOWER('%q%')`. */
  predicate Matches(filename: string, q: string) {
    Contains(Lower(filename), Lower(q))
  }

  /** The keys of the rows that the name filter selects. */
  function MatchingKeys(t: Table, q: string): set<Key> {
    set k | k in t.rows && Matches(t.rows[k].filename, q)
  }

  /** `SELECT COUNT(*) FROM images WHERE LOWER(filename) LIKE LOWER('%q%')`. */
  function CountFilesByName(t: Table, q: string): nat {
    |MatchingKeys(t, q)|
  }

  /** The filter never selects more rows than the table has. */
  lemma CountByNameAtMostAll(t: Table, q: string)
    ensures CountFilesByName(t, q) <= CountAllImages(t)
  {
    assert MatchingKeys(t, q) <= t.rows.Keys;
    SubsetCard(MatchingKeys(t, q), t.rows.Keys);
  }

  lemma SubsetCard<X>(a: set<X>, b: set<X>)
    requires a <= b
    ensures |a| <= |b|
  {
    assert b == a + (b - a);
  }

  /** `k` comes first among `ks` under the requested order. */
  ghost predicate IsFirst(m: map<Key, Row>, ks: set<Key>, k: Key, desc: bool) {
    k in ks && k in m && forall k' | k' in ks && k' in m :: InOrder(m[k].filename, m[k'].filename, desc)
  }

  lemma {:induction false} FirstExists(m: map<Key, Row>, ks: set<Key>, desc: bool)
    requires ks <= m.Keys && ks != {}
    ensures exists k :: IsFirst(m, ks, k, desc)
    decreases |ks|
  {
    var x :| x in ks;
    if ks == {x} {
      NameLeTotal(m[x].filename, m[x].filename);
      assert IsFirst(m, ks, x, desc);
    } else {
      var rest := ks - {x};
      FirstExists(m, rest, desc);
      var y :| IsFirst(m, rest, y, desc);
      NameLeTotal(m[x].filename, m[y].filename);
      if InOrder(m[x].filename, m[y].filename, desc) {
        forall k' | k' in ks && k' in m ensures InOrder(m[x].filename, m[k'].filename, desc) {
          if k' == x {
            NameLeTotal(m[x].filename, m[x].filename);
          } else if desc {
            NameLeTransitive(m[k'].filename, m[y].filename, m[x].filename);
          } else {
            NameLeTransitive(m[x].filename, m[y].filename, m[k'].filename);
          }
        }
        assert IsFirst(m, ks, x, desc);
      } else {
        assert IsFirst(m, ks, y, desc);
      }
    }
  }

  /**
   * The keys `ks` listed in filename order: each time one that may come first is
   * chosen, so the order among equal filenames is left open.
   */
  ghost function SortKeys(m: map<Key, Row>, ks: set<Key>, desc: bool): (r: seq<Key>)
    requires ks <= m.Keys
    ensures |r| == |ks|
    ensures forall i | 0 <= i < |r| :: r[i] in ks
    ensures forall k | k in ks :: k in r
    ensures forall i, j | 0 <= i < j < |r| :: r[i] != r[j]
    ensures forall i, j | 0 <= i < j < |r| :: InOrder(m[r[i]].filename, m[r[j]].filename, desc)
    decreases |ks|
  {
    if ks == {} then []
    else
      FirstExists(m, ks, desc);
      var k :| IsFirst(m, ks, k, desc);
      var rest := SortKeys(m, ks - {k}, desc);
      SortStep(m, ks, k, rest, desc);
      [k] + rest
  }

  /** Putting a first key in front of the sorted others sorts them all. */
  lemma SortStep(m: map<Key, Row>, ks: set<Key>, k: Key, rest: seq<Key>, desc: bool)
    requires ks <= m.Keys && IsFirst(m, ks, k, desc)
    requires |rest| == |ks - {k}|
    requires forall i | 0 <= i < |rest| :: rest[i] in ks - {k}
    requires forall x | x in ks - {k} :: x in rest
    requires forall i, j | 0 <= i < j < |rest| :: rest[i] != rest[j]
    requires forall i, j | 0 <= i < j < |rest| :: InOrder(m[rest[i]].filename, m[rest[j]].filename, desc)
    ensures var r := [k] + rest;
            && |r| == |ks|
            && (forall i | 0 <= i < |r| :: r[i] in ks)
            && (forall x | x in ks :: x in r)
            && (forall i, j | 0 <= i < j < |r| :: r[i] != r[j])
            && (forall i, j | 0 <= i < j < |r| :: InOrder(m[r[i]].filename, m[r[j]].filename, desc))
  {
    var r := [k] + rest;
    forall i | 0 < i < |r| ensures r[i] == rest[i - 1] && r[i] in ks - {k} {}
    forall x | x in ks ensures x in r {
      if x != k { assert x in ks - {k}; }
    }
    forall i, j | 0 <= i < j < |r| ensures r[i] != r[j] && InOrder(m[r[i]].filename, m[r[j]].filename, desc) {
      if i > 0 { assert r[i] == rest[i - 1] && r[j] == rest[j - 1]; }
    }
  }

  /** The rows stored under `ks`, in that order. */
  function RowsAt(m: map<Key, Row>, ks: seq<Key>): (r: seq<Row>)
    requires forall i | 0 <= i < |ks| :: ks[i] in m
    ensures |r| == |ks| && forall i | 0 <= i < |ks| :: r[i] == m[ks[i]]
  {
    seq(|ks|, i requires 0 <= i < |ks| => m[ks[i]])
  }

  /** The keys of the filtered rows in the order SearchFilesByName returns them, before paging. */
  ghost function SearchOrder(t: Table, q: string, order: string): seq<Key> {
    SortKeys(t.rows, MatchingKeys(t, q), order == "desc")
  }

  /**
   * `search_files_by_name(filename, limit, offset, order)`: the rows whose lower-cased
   * filename contains the lower-cased `filename`, ordered by filename, descending only
   * for `order == "desc"`, after skipping `offset` rows and keeping at most `limit`.
   */
  ghost function SearchFilesByName(t: Table, filename: string, limit: int, offset: int, order: string): (r: Result<seq<Row>>)
    ensures r.Success? <==> limit >= 0 && offset >= 0
    ensures r.Success? ==>
      && |r.value| == Min(limit, Max(0, CountFilesByName(t, filename) - offset))
      && (forall i | 0 <= i < |r.value| :: r.value[i] in t.rows.Values && Matches(r.value[i].filename, filename))
      && (forall i, j | 0 <= i < j < |r.value| :: InOrder(r.value[i].filename, r.value[j].filename, order == "desc"))
    ensures r.Success? && WellKeyed(t) ==> forall i, j | 0 <= i < j < |r.value| :: r.value[i] != r.value[j]
  {
    var keys := SearchOrder(t, filename, order);
    match Page(keys, limit, offset)
    case Failure(e) => Failure(e)
    case Success(page) =>
      WindowShape(keys, limit, offset);
      Success(RowsAt(t.rows, page))
  }

  /** A page never holds more rows than the count of the same filter. */
  lemma PageWithinCount(t: Table, q: string, limit: int, offset: int, order: string)
    requires SearchFilesByName(t, q, limit, offset, order).Success?
    ensures |SearchFilesByName(t, q, limit, offset, order).value| <= CountFilesByName(t, q)
  {
  }

  /** A page of the search is the rows under one window of the search order. */
  lemma SearchWindow(t: Table, q: string, limit: nat, offset: nat, order: string)
    ensures var keys := SearchOrder(t, q, order);
            && (forall i | 0 <= i < |Window(keys, limit, offset)| :: Window(keys, limit, offset)[i] in t.rows)
            && SearchFilesByName(t, q, limit, offset, order) == Success(RowsAt(t.rows, Window(keys, limit, offset)))
  {
    WindowShape(SearchOrder(t, q, order), limit, offset);
  }

  /** The filenames of `rows`, in order. */
  function Filenames(rows: seq<Row>): (r: seq<string>)
    ensures |r| == |rows| && forall i | 0 <= i < |rows| :: r[i] == rows[i].filename
  {
    seq(|rows|, i requires 0 <= i < |rows| => rows[i].filename)
  }

  /** The filenames of the rows stored under `ks`, in that order (empty for a key with no row). */
  function NamesAt(m: map<Key, Row>, ks: seq<Key>): (r: seq<string>)
    ensures |r| == |ks| && forall i | 0 <= i < |ks| && ks[i] in m :: r[i] == m[ks[i]].filename
  {
    seq(|ks|, i requires 0 <= i < |ks| => if ks[i] in m then m[ks[i]].filename else "")
  }

  /** `ks` lists every key of `s` exactly once. */
  predicate Enumerates(ks: seq<Key>, s: set<Key>) {
    && (forall i | 0 <= i < |ks| :: ks[i] in s)
    && (forall k | k in s :: k in ks)
    && (forall i, j | 0 <= i < j < |ks| :: ks[i] != ks[j])
  }

  /**
   * An order in which the store may return the rows matching `q`: each matching key
   * once, by filename, ascending or descending, with ties in any order at all.
   */
  ghost predicate StoreOrder(t: Table, q: string, order: string, ks: seq<Key>) {
    && Enumerates(ks, MatchingKeys(t, q))
    && (forall i | 0 <= i < |ks| :: ks[i] in t.rows)
    && (forall i, j | 0 <= i < j < |ks| :: InOrder(t.rows[ks[i]].filename, t.rows[ks[j]].filename, order == "desc"))
  }

  /** The model's own order is one the store may use. */
  lemma SearchOrderIsStoreOrder(t: Table, q: string, order: string)
    ensures StoreOrder(t, q, order, SearchOrder(t, q, order))
  {
    var ks := SearchOrder(t, q, order);
    assert forall i | 0 <= i < |ks| :: ks[i] in t.rows;
  }

  lemma {:induction false} NameLeAntisymmetric(a: string, b: string)
    requires NameLe(a, b) && NameLe(b, a)
    ensures a == b
    decreases |a|
  {
    if a != [] {
      NameLeAntisymmetric(a[1..], b[1..]);
      assert a == [a[0]] + a[1..] && b == [b[0]] + b[1..];
    }
  }

  /** Names sorted by filename, ascending or descending. */
  predicate NamesSorted(a: seq<string>, desc: bool) {
    forall i, j | 0 <= i < j < |a| :: InOrder(a[i], a[j], desc)
  }

  lemma NamesSortedTail(a: seq<string>, desc: bool)
    requires NamesSorted(a, desc) && a != []
    ensures NamesSorted(a[1..], desc)
  {
    forall i, j | 0 <= i < j < |a| - 1 ensures InOrder(a[1..][i], a[1..][j], desc) {
      assert a[1..][i] == a[i + 1] && a[1..][j] == a[j + 1];
    }
  }

  /** The head of a sorted sequence of names may come before any of its names. */
  lemma SortedHeadFirst(a: seq<string>, desc: bool, x: string)
    requires NamesSorted(a, desc)
    requires x in a
    ensures InOrder(a[0], x, desc)
  {
    var i :| 0 <= i < |a| && a[i] == x;
    if i == 0 { NameLeTotal(x, x); }
  }

  lemma MultisetTail<X>(a: seq<X>)
    requires a != []
    ensures multiset(a[1..]) == multiset(a) - multiset{a[0]}
  {
    assert a == [a[0]] + a[1..];
  }

  /** Two non-empty sequences with the same head and the same tail are equal. */
  lemma ConsEqual<X>(a: seq<X>, b: seq<X>)
    requires a != [] && b != [] && a[0] == b[0] && a[1..] == b[1..]
    ensures a == b
  {
    assert a == [a[0]] + a[1..] && b == [b[0]] + b[1..];
  }

  /** Two sequences of names sorted the same way and holding the same names are equal. */
  lemma {:induction false} SortedNamesUnique(a: seq<string>, b: seq<string>, desc: bool)
    requires NamesSorted(a, desc) && NamesSorted(b, desc)
    requires multiset(a) == multiset(b)
    ensures a == b
    decreases |a|
  {
    assert |a| == |b| by { assert |multiset(a)| == |multiset(b)|; }
    if a != [] {
      assert a[0] == b[0] by {
        assert a[0] in multiset(b) && b[0] in multiset(a);
        SortedHeadFirst(b, desc, a[0]);
        SortedHeadFirst(a, desc, b[0]);
        if desc { NameLeAntisymmetric(b[0], a[0]); } else { NameLeAntisymmetric(a[0], b[0]); }
      }
      assert multiset(a[1..]) == multiset(b[1..]) by { MultisetTail(a); MultisetTail(b); }
      NamesSortedTail(a, desc);
      NamesSortedTail(b, desc);
      SortedNamesUnique(a[1..], b[1..], desc);
      ConsEqual(a, b);
    }
  }

  lemma NamesAtConcat(m: map<Key, Row>, a: seq<Key>, b: seq<Key>)
    ensures NamesAt(m, a + b) == NamesAt(m, a) + NamesAt(m, b)
  {
    assert forall i | 0 <= i < |a + b| :: (a + b)[i] == if i < |a| then a[i] else b[i - |a|];
  }

  /** `ks` without its entry at position `j`. */
  function Without(ks: seq<Key>, j: nat): (r: seq<Key>)
    requires j < |ks|
    ensures |r| == |ks| - 1
    ensures forall i | 0 <= i < j :: r[i] == ks[i]
    ensures forall i | j <= i < |r| :: r[i] == ks[i + 1]
  {
    ks[..j] + ks[j + 1..]
  }

  /** Leaving out the key at position `j` leaves a listing of the other keys. */
  lemma RemoveAt(ks: seq<Key>, s: set<Key>, j: nat)
    requires Enumerates(ks, s) && j < |ks|
    ensures Enumerates(Without(ks, j), s - {ks[j]})
  {
    var rest := Without(ks, j);
    forall i | 0 <= i < |rest| ensures rest[i] in s - {ks[j]} {
      var p := if i < j then i else i + 1;
      assert rest[i] == ks[p] && p != j;
    }
    forall k | k in s - {ks[j]} ensures k in rest {
      var p :| 0 <= p < |ks| && ks[p] == k;
      if p < j { assert rest[p] == k; } else { assert rest[p - 1] == k; }
    }
    forall i, i' | 0 <= i < i' < |rest| ensures rest[i] != rest[i'] {
      var p := if i < j then i else i + 1;
      var p' := if i' < j then i' else i' + 1;
      assert rest[i] == ks[p] && rest[i'] == ks[p'] && p < p';
    }
  }

  /** A listing holds as many keys as the set it lists. */
  lemma {:induction false} EnumerationCard(ks: seq<Key>, s: set<Key>)
    requires Enumerates(ks, s)
    ensures |ks| == |s|
    decreases |ks|
  {
    if ks == [] {
      assert forall k :: k !in s;
      assert s == {};
    } else {
      RemoveAt(ks, s, 0);
      EnumerationCard(Without(ks, 0), s - {ks[0]});
    }
  }

  /** The filenames under `ks` are those without position `j` plus the one at `j`. */
  lemma NamesRemoveAt(m: map<Key, Row>, ks: seq<Key>, j: nat)
    requires forall i | 0 <= i < |ks| :: ks[i] in m
    requires j < |ks|
    ensures forall i | 0 <= i < |Without(ks, j)| :: Without(ks, j)[i] in m
    ensures multiset(NamesAt(m, ks)) == multiset(NamesAt(m, Without(ks, j))) + multiset{m[ks[j]].filename}
  {
    var w := Without(ks, j);
    forall i | 0 <= i < |w| ensures w[i] in m {
      if i < j { assert w[i] == ks[i]; } else { assert w[i] == ks[i + 1]; }
    }
    var pre, post := ks[..j], ks[j + 1..];
    assert ks == (pre + [ks[j]]) + post;
    assert w == pre + post;
    NamesAtConcat(m, pre + [ks[j]], post);
    NamesAtConcat(m, pre, [ks[j]]);
    NamesAtConcat(m, pre, post);
    assert NamesAt(m, [ks[j]]) == [m[ks[j]].filename];
  }

  /** Any two listings of the same keys list the same filenames, counted with repetition. */
  lemma {:induction false} EnumerationNames(m: map<Key, Row>, s: set<Key>, k1: seq<Key>, k2: seq<Key>)
    requires s <= m.Keys && Enumerates(k1, s) && Enumerates(k2, s)
    ensures multiset(NamesAt(m, k1)) == multiset(NamesAt(m, k2))
    decreases |k1|
  {
    EnumerationCard(k1, s);
    EnumerationCard(k2, s);
    if k1 != [] {
      var x := k1[0];
      assert x in s;
      var j :| 0 <= j < |k2| && k2[j] == x;
      RemoveAt(k1, s, 0);
      RemoveAt(k2, s, j);
      EnumerationNames(m, s - {x}, Without(k1, 0), Without(k2, j));
      NamesRemoveAt(m, k1, 0);
      NamesRemoveAt(m, k2, j);
    }
  }

  /** Whatever order the store gives the ties, the filenames come out in one and the same sequence. */
  lemma StoreOrderNames(t: Table, q: string, order: string, k1: seq<Key>, k2: seq<Key>)
    requires StoreOrder(t, q, order, k1) && StoreOrder(t, q, order, k2)
    ensures NamesAt(t.rows, k1) == NamesAt(t.rows, k2)
  {
    EnumerationNames(t.rows, MatchingKeys(t, q), k1, k2);
    SortedNamesUnique(NamesAt(t.rows, k1), NamesAt(t.rows, k2), order == "desc");
  }

  lemma NamesAtWindow(m: map<Key, Row>, ks: seq<Key>, limit: nat, offset: nat)
    requires forall i | 0 <= i < |ks| :: ks[i] in m
    ensures forall i | 0 <= i < |Window(ks, limit, offset)| :: Window(ks, limit, offset)[i] in m
    ensures NamesAt(m, Window(ks, limit, offset)) == Window(NamesAt(m, ks), limit, offset)
  {
    WindowShape(ks, limit, offset);
    WindowShape(NamesAt(m, ks), limit, offset);
  }

  /**
   * A page of the search holds the filenames that the same window of any order the
   * store may use holds: the model's choice among equal filenames is invisible in them.
   */
  lemma PageNamesAnyOrder(t: Table, q: string, limit: nat, offset: nat, order: string, ks: seq<Key>)
    requires StoreOrder(t, q, order, ks)
    ensures forall i | 0 <= i < |Window(ks, limit, offset)| :: Window(ks, limit, offset)[i] in t.rows
    ensures SearchFilesByName(t, q, limit, offset, order).Success?
    ensures Filenames(SearchFilesByName(t, q, limit, offset, order).value) == NamesAt(t.rows, Window(ks, limit, offset))
  {
    var so := SearchOrder(t, q, order);
    SearchOrderIsStoreOrder(t, q, order);
    var w := Window(so, limit, offset);
    NamesAtWindow(t.rows, so, limit, offset);
    NamesAtWindow(t.rows, ks, limit, offset);
    assert SearchFilesByName(t, q, limit, offset, order) == Success(RowsAt(t.rows, w)) by {
      SearchWindow(t, q, limit, offset, order);
    }
    assert Filenames(RowsAt(t.rows, w)) == NamesAt(t.rows, w);
    StoreOrderNames(t, q, order, so, ks);
  }

  /**
   * Three queries for pages at `offset`, at `offset + limit` and for the double page
   * at `offset`, each free to order equal filenames its own way: the filenames of the
   * first two, one after the other, are those of the third.
   */
  lemma AdjacentPages(t: Table, q: string, limit: nat, offset: nat, order: string,
                      k1: seq<Key>, k2: seq<Key>, k3: seq<Key>)
    requires StoreOrder(t, q, order, k1) && StoreOrder(t, q, order, k2) && StoreOrder(t, q, order, k3)
    ensures forall i | 0 <= i < |k1| :: k1[i] in t.rows
    ensures NamesAt(t.rows, Window(k1, limit, offset)) + NamesAt(t.rows, Window(k2, limit, offset + limit))
         == NamesAt(t.rows, Window(k3, 2 * limit, offset))
  {
    StoreOrderNames(t, q, order, k1, k2);
    StoreOrderNames(t, q, order, k1, k3);
    NamesAtWindow(t.rows, k1, limit, offset);
    NamesAtWindow(t.rows, k2, limit, offset + limit);
    NamesAtWindow(t.rows, k3, 2 * limit, offset);
    AdjacentWindows(NamesAt(t.rows, k1), limit, offset);
  }
}
