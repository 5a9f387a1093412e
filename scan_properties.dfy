/** What `searchFiles` guarantees, proved about its specification in ScanSpec. */
module ScanProperties {
  import opened Wrappers
  import opened Paths
  import opened Images
  import opened ScanSpec

  /** The qualification test is "some configured extension ends the lower-cased path". */
  lemma {:induction false} QualifiesIff(filePath: string, fileTypes: seq<string>)
    ensures Qualifies(filePath, fileTypes) <==>
            exists i :: 0 <= i < |fileTypes| && EndsWith(Lower(filePath), fileTypes[i])
    decreases |fileTypes|
  {
    if fileTypes != [] {
      QualifiesIff(filePath, fileTypes[1..]);
      if Qualifies(filePath, fileTypes[1..]) {
        var i :| 0 <= i < |fileTypes[1..]| && EndsWith(Lower(filePath), fileTypes[1..][i]);
        assert fileTypes[i + 1] == fileTypes[1..][i];
      }
      if exists i :: 0 <= i < |fileTypes| && EndsWith(Lower(filePath), fileTypes[i]) {
        var i :| 0 <= i < |fileTypes| && EndsWith(Lower(filePath), fileTypes[i]);
        if i > 0 { assert fileTypes[1..][i - 1] == fileTypes[i]; }
      }
    }
  }

  /** A configured extension with an upper-case letter (such as "PI1") never selects a file. */
  lemma UpperCaseExtensionNeverMatches(filePath: string, fileTypes: seq<string>, e: int, k: int)
    requires 0 <= e < |fileTypes| && 0 <= k < |fileTypes[e]| && IsUpper(fileTypes[e][k])
    ensures !EndsWith(Lower(filePath), fileTypes[e])
    ensures Qualifies(filePath, fileTypes) == Qualifies(filePath, fileTypes[..e] + fileTypes[e + 1..])
  {
    UpperSuffixNeverMatches(filePath, fileTypes[e], k);
    var rest := fileTypes[..e] + fileTypes[e + 1..];
    QualifiesIff(filePath, fileTypes);
    QualifiesIff(filePath, rest);
    if Qualifies(filePath, fileTypes) {
      var i :| 0 <= i < |fileTypes| && EndsWith(Lower(filePath), fileTypes[i]);
      if i < e { assert rest[i] == fileTypes[i]; } else { assert rest[i - 1] == fileTypes[i]; }
    }
    if Qualifies(filePath, rest) {
      var i :| 0 <= i < |rest| && EndsWith(Lower(filePath), rest[i]);
      if i < e { assert rest[i] == fileTypes[i]; } else { assert rest[i] == fileTypes[i + 1]; }
    }
  }

  /**
   * Matching is a plain suffix test of the lower-cased path: a name without any '.'
   * (so with an empty `extension`) is selected when it ends in a configured extension,
   * as "notajpg" is by "jpg".
   */
  lemma SuffixNeedsNoDot(dir: string, name: string, fileTypes: seq<string>, e: int)
    requires NormalDir(dir) && ValidName(name) && '.' !in name
    requires 0 <= e < |fileTypes| && EndsWith(Lower(name), fileTypes[e])
    ensures Qualifies(Join(dir, name), fileTypes)
    ensures Extname(Join(dir, name)) == ""
  {
    JoinSplits(dir, name);
    NoDotNoExtension(name);
    JoinKeepsSuffix(dir, name, fileTypes[e]);
    QualifiesIff(Join(dir, name), fileTypes);
  }

  /** An empty configured extension (a trailing comma in the list) selects every file. */
  lemma EmptyExtensionSelectsAll(filePath: string, fileTypes: seq<string>)
    requires "" in fileTypes
    ensures Qualifies(filePath, fileTypes)
  {
    var i :| 0 <= i < |fileTypes| && fileTypes[i] == "";
    QualifiesIff(filePath, fileTypes);
    assert EndsWith(Lower(filePath), fileTypes[i]);
  }

  /** The record of a file listed in a normal directory is keyed by (that directory, its name). */
  lemma RecordKey(dir: string, name: string, stat: Stat)
    requires NormalDir(dir) && ValidName(name)
    ensures KeyOf(FileRecord(Join(dir, name), stat)) == (dir, name)
    ensures FileRecord(Join(dir, name), stat).extension == Extname(name)
    ensures FileRecord(Join(dir, name), stat).size == stat.size
  {
    JoinSplits(dir, name);
  }

  /**
   * The scan upserts a prefix of the depth-first listing of qualifying files, in
   * order, and the whole of it when it returns normally: a subdirectory is finished
   * before the next sibling entry is looked at.
   */
  lemma {:induction false} ScanFollowsWalk(path: string, node: Entry, cfg: Settings, seconds: int,
                                           table: Table, pauses: seq<Pause>) returns (k: nat)
    ensures var s := ScanDir(path, node, cfg, seconds, table, pauses);
            var w := Walk(path, node, cfg.fileTypes);
            k <= |w| && s.table == UpsertAll(table, w[..k], cfg.now) && (s.result.Success? ==> k == |w|)
    decreases node, 1, 0
  {
    if node.Dir? {
      k := ScanEntriesFollowWalk(path, node, 0, cfg, seconds, table, pauses, Tally(0, Num(0)));
    } else {
      k := 0;
    }
  }

  lemma {:induction false} ScanEntriesFollowWalk(path: string, dir: Entry, i: nat, cfg: Settings, seconds: int,
                                                 table: Table, pauses: seq<Pause>, tally: Tally) returns (k: nat)
    requires dir.Dir? && i <= |dir.children|
    ensures var s := ScanEntries(path, dir, i, cfg, seconds, table, pauses, tally);
            var w := WalkEntries(path, dir, i, cfg.fileTypes);
            k <= |w| && s.table == UpsertAll(table, w[..k], cfg.now) && (s.result.Success? ==> k == |w|)
    decreases dir, 0, |dir.children| - i
  {
    if i == |dir.children| {
      k := 0;
      return;
    }
    var entry := dir.children[i];
    var v := Visit(path, entry, cfg, seconds, table, pauses, tally);
    var here := WalkEntry(path, entry, cfg.fileTypes);
    var rest := WalkEntries(path, dir, i + 1, cfg.fileTypes);
    var w := here + rest;
    var k1 := VisitFollowsWalk(path, entry, cfg, seconds, table, pauses, tally);
    var k2, later := 0, v;
    if v.result.Success? {
      later := ScanEntries(path, dir, i + 1, cfg, seconds, v.table, v.pauses, v.result.value);
      k2 := ScanEntriesFollowWalk(path, dir, i + 1, cfg, seconds, v.table, v.pauses, v.result.value);
    }
    k := FollowStep(table, cfg.now, v, later, here, rest, k1, k2);
  }

  /**
   * One step of the loop in records: what the entry upserted, then, if it went on,
   * what the later entries upserted, is a prefix of the directory's records.
   */
  lemma FollowStep(table: Table, now: Timestamp, v: Scan, later: Scan,
                   here: seq<FileData>, rest: seq<FileData>, k1: nat, k2: nat) returns (k: nat)
    requires k1 <= |here| && v.table == UpsertAll(table, here[..k1], now) && (v.result.Success? ==> k1 == |here|)
    requires v.result.Success? ==>
               k2 <= |rest| && later.table == UpsertAll(v.table, rest[..k2], now)
               && (later.result.Success? ==> k2 == |rest|)
    ensures var s := if v.result.Failure? then v else later;
            k <= |here + rest| && s.table == UpsertAll(table, (here + rest)[..k], now)
            && (s.result.Success? ==> k == |here + rest|)
  {
    if v.result.Failure? {
      k := k1;
      assert (here + rest)[..k] == here[..k1];
    } else {
      k := |here| + k2;
      assert here[..k1] == here;
      assert (here + rest)[..k] == here + rest[..k2];
      UpsertAllAppend(table, here, rest[..k2], now);
    }
  }

  lemma {:induction false} VisitFollowsWalk(path: string, entry: Entry, cfg: Settings, seconds: int,
                                            table: Table, pauses: seq<Pause>, tally: Tally) returns (k: nat)
    ensures var v := Visit(path, entry, cfg, seconds, table, pauses, tally);
            var w := WalkEntry(path, entry, cfg.fileTypes);
            k <= |w| && v.table == UpsertAll(table, w[..k], cfg.now) && (v.result.Success? ==> k == |w|)
    decreases entry, 2, 0
  {
    var filePath := Join(path, entry.name);
    match entry {
      case Unreadable(_, _) =>
        k := 0;
      case Dir(_, _) =>
        k := ScanFollowsWalk(filePath, entry, cfg, DefaultPauseSeconds, table, pauses);
      case File(_, stat) =>
        if Qualifies(filePath, cfg.fileTypes) {
          var rec := FileRecord(filePath, stat);
          assert [rec][1..] == [];
          assert UpsertAll(table, [rec], cfg.now) == Upsert(table, rec, cfg.now);
          k := 1;
        } else {
          k := 0;
        }
    }
  }

  /**
   * A scan that returns normally leaves exactly the old keys plus the keys of the
   * storable qualifying files under the start directory, each holding its file's row.
   */
  lemma ScanRecordsListing(path: string, node: Entry, cfg: Settings, seconds: int, table: Table, pauses: seq<Pause>)
    ensures var s := ScanDir(path, node, cfg, seconds, table, pauses);
            var w := Walk(path, node, cfg.fileTypes);
            s.result.Success? ==>
              && s.table == UpsertAll(table, w, cfg.now)
              && s.table.rows.Keys == table.rows.Keys + StorableKeys(w)
  {
    var k := ScanFollowsWalk(path, node, cfg, seconds, table, pauses);
    var w := Walk(path, node, cfg.fileTypes);
    assert w[..|w|] == w;
    UpsertAllKeys(table, w, cfg.now);
  }

  /** No entry in the tree is a file. */
  predicate NoFiles(e: Entry)
    decreases e
  {
    !e.File? && (e.Dir? ==> forall i | 0 <= i < |e.children| :: NoFiles(e.children[i]))
  }

  lemma {:induction false} WalkWithoutFiles(path: string, node: Entry, fileTypes: seq<string>)
    requires NoFiles(node)
    ensures Walk(path, node, fileTypes) == []
    decreases node, 1, 0
  {
    if node.Dir? { WalkEntriesWithoutFiles(path, node, 0, fileTypes); }
  }

  lemma {:induction false} WalkEntriesWithoutFiles(path: string, dir: Entry, i: nat, fileTypes: seq<string>)
    requires dir.Dir? && i <= |dir.children| && NoFiles(dir)
    ensures WalkEntries(path, dir, i, fileTypes) == []
    decreases dir, 0, |dir.children| - i
  {
    if i < |dir.children| {
      var entry := dir.children[i];
      if entry.Dir? { WalkWithoutFiles(Join(path, entry.name), entry, fileTypes); }
      WalkEntriesWithoutFiles(path, dir, i + 1, fileTypes);
    }
  }

  /** Directories are recursed into, never recorded, whatever their names. */
  lemma DirectoriesNeverRecorded(path: string, node: Entry, cfg: Settings, seconds: int, table: Table, pauses: seq<Pause>)
    requires NoFiles(node)
    ensures ScanDir(path, node, cfg, seconds, table, pauses).table == table
  {
    WalkWithoutFiles(path, node, cfg.fileTypes);
    var k := ScanFollowsWalk(path, node, cfg, seconds, table, pauses);
  }

  lemma {:induction false} PausesAtAppend(a: seq<Pause>, b: seq<Pause>, dir: string)
    ensures PausesAt(a + b, dir) == PausesAt(a, dir) + PausesAt(b, dir)
    decreases |a|
  {
    if a == [] {
      assert a + b == b;
    } else {
      assert (a + b)[1..] == a[1..] + b;
      PausesAtAppend(a[1..], b, dir);
    }
  }

  lemma {:induction false} PausesAtNone(a: seq<Pause>, dir: string)
    requires forall j | 0 <= j < |a| :: a[j].dir != dir
    ensures PausesAt(a, dir) == 0
    decreases |a|
  {
    if a != [] { PausesAtNone(a[1..], dir); }
  }

  /** The pauses a scan of `path` appends to `pauses`. */
  function Added(s: Scan, pauses: seq<Pause>): seq<Pause>
    requires pauses <= s.pauses
  {
    s.pauses[|pauses|..]
  }

  /** Every pause a call takes is tagged with its own directory or one below it. */
  ghost predicate PauseShape(added: seq<Pause>, path: string, seconds: int) {
    forall j | 0 <= j < |added| ::
      && StartsWith(added[j].dir, path)
      && (added[j].dir == path ==> added[j].seconds == seconds)
      && (added[j].dir != path ==> added[j].seconds == DefaultPauseSeconds)
  }

  /**
   * Pauses taken by the loop of the start directory last `seconds`; those taken
   * deeper down last the default 5 seconds, because recursive calls drop
   * `pauseTimeSeconds`.
   */
  lemma {:induction false} NestedPausesUseDefault(path: string, node: Entry, cfg: Settings, seconds: int,
                                                  table: Table, pauses: seq<Pause>)
    requires WellFormed(node)
    ensures var s := ScanDir(path, node, cfg, seconds, table, pauses); PauseShape(Added(s, pauses), path, seconds)
    decreases node, 1, 0
  {
    if node.Dir? {
      EntriesPauseShape(path, node, 0, cfg, seconds, table, pauses, Tally(0, Num(0)));
    }
  }

  lemma {:induction false} EntriesPauseShape(path: string, dir: Entry, i: nat, cfg: Settings, seconds: int,
                                             table: Table, pauses: seq<Pause>, tally: Tally)
    requires dir.Dir? && i <= |dir.children| && WellFormed(dir)
    ensures var s := ScanEntries(path, dir, i, cfg, seconds, table, pauses, tally); PauseShape(Added(s, pauses), path, seconds)
    decreases dir, 0, |dir.children| - i
  {
    if i < |dir.children| {
      var entry := dir.children[i];
      var v := Visit(path, entry, cfg, seconds, table, pauses, tally);
      VisitPauseShape(path, entry, cfg, seconds, table, pauses, tally);
      if v.result.Success? {
        EntriesPauseShape(path, dir, i + 1, cfg, seconds, v.table, v.pauses, v.result.value);
        var s := ScanEntries(path, dir, i, cfg, seconds, table, pauses, tally);
        assert Added(s, pauses) == Added(v, pauses) + Added(s, v.pauses);
      }
    }
  }

  lemma {:induction false} VisitPauseShape(path: string, entry: Entry, cfg: Settings, seconds: int,
                                           table: Table, pauses: seq<Pause>, tally: Tally)
    requires ValidName(entry.name) && WellFormed(entry)
    ensures var v := Visit(path, entry, cfg, seconds, table, pauses, tally); PauseShape(Added(v, pauses), path, seconds)
    decreases entry, 2, 0
  {
    if entry.Dir? {
      var filePath := Join(path, entry.name);
      var sub := ScanDir(filePath, entry, cfg, DefaultPauseSeconds, table, pauses);
      NestedPausesUseDefault(filePath, entry, cfg, DefaultPauseSeconds, table, pauses);
      JoinGrows(path, entry.name);
      JoinStartsWith(path, entry.name);
      var nested := Added(sub, pauses);
      forall j | 0 <= j < |nested| ensures StartsWith(nested[j].dir, path) && nested[j].dir != path {
        StartsWithTransitive(nested[j].dir, filePath, path);
      }
      if sub.result.Success? {
        var v := Visit(path, entry, cfg, seconds, table, pauses, tally);
        assert Added(v, pauses) == Added(sub, pauses) + v.pauses[|sub.pauses|..];
      }
    }
  }

  /** The pauses a call appends were all taken by deeper directories' loops when none is tagged `path`. */
  lemma NestedNotCounted(added: seq<Pause>, path: string, deeper: string)
    requires PauseShape(added, deeper, DefaultPauseSeconds) && |deeper| > |path|
    ensures PausesAt(added, path) == 0
  {
    forall j | 0 <= j < |added| ensures added[j].dir != path {
      assert |added[j].dir| >= |deeper|;
    }
    PausesAtNone(added, path);
  }

  /**
   * One pass of the loop body: the counter grows by one for a qualifying file, a
   * pause is taken and the counter reset once it reaches `pauseAfter`, and `new_files`
   * turns NaN on a qualifying file; the subdirectory's own tally plays no part.
   */
  lemma VisitTally(path: string, entry: Entry, cfg: Settings, seconds: int,
                   table: Table, pauses: seq<Pause>, tally: Tally)
    ensures var v := Visit(path, entry, cfg, seconds, table, pauses, tally);
            var c := tally.fileCount + Direct(path, entry, cfg.fileTypes);
            var nf := if Direct(path, entry, cfg.fileTypes) == 1 then NaN else tally.newFiles;
            v.result.Success? ==> v.result.value == (if c >= cfg.pauseAfter then Tally(0, nf) else Tally(c, nf))
  {
  }

  /** One pass of the loop body takes one pause of its own exactly when the counter reaches `pauseAfter`. */
  lemma VisitOwnPauses(path: string, entry: Entry, cfg: Settings, seconds: int,
                       table: Table, pauses: seq<Pause>, tally: Tally)
    requires ValidName(entry.name) && WellFormed(entry)
    ensures var v := Visit(path, entry, cfg, seconds, table, pauses, tally);
            var c := tally.fileCount + Direct(path, entry, cfg.fileTypes);
            v.result.Success? ==>
              PausesAt(v.pauses, path) == PausesAt(pauses, path) + (if c >= cfg.pauseAfter then 1 else 0)
  {
    var v := Visit(path, entry, cfg, seconds, table, pauses, tally);
    var filePath := Join(path, entry.name);
    if v.result.Success? {
      var prior := pauses;
      if entry.Dir? {
        var sub := ScanDir(filePath, entry, cfg, DefaultPauseSeconds, table, pauses);
        NestedPausesUseDefault(filePath, entry, cfg, DefaultPauseSeconds, table, pauses);
        JoinGrows(path, entry.name);
        NestedNotCounted(Added(sub, pauses), path, filePath);
        prior := sub.pauses;
        assert Added(v, pauses) == Added(sub, pauses) + v.pauses[|prior|..];
        PausesAtAppend(Added(sub, pauses), v.pauses[|prior|..], path);
      }
      assert v.pauses[|prior|..] == if tally.fileCount + Direct(path, entry, cfg.fileTypes) >= cfg.pauseAfter
                                     then [Pause(path, seconds)] else [];
      AddedCount(v, pauses, path);
    }
  }

  /** Counting the pauses a call appended is counting all of them minus the earlier ones. */
  lemma AddedCount(s: Scan, pauses: seq<Pause>, path: string)
    requires pauses <= s.pauses
    ensures PausesAt(Added(s, pauses), path) == PausesAt(s.pauses, path) - PausesAt(pauses, path)
  {
    assert s.pauses == pauses + Added(s, pauses);
    PausesAtAppend(pauses, Added(s, pauses), path);
  }

  lemma MulMono(k: int, p: int)
    requires k >= 1 && p >= 1
    ensures k * p >= p
  {
  }

  /** Euclidean division is determined by quotient and remainder. */
  lemma DivUnique(d: int, p: int, q: int, f: int)
    requires p >= 1 && 0 <= f < p && d == q * p + f
    ensures d / p == q && d % p == f
  {
    var q', f' := d / p, d % p;
    assert d == q' * p + f';
    if q > q' {
      MulMono(q - q', p);
    } else if q < q' {
      MulMono(q' - q, p);
    }
  }

  /**
   * The loop's throttle on its own, as a counter over the entries from `i` on
   * starting at `c`: how many pauses it takes and the counter it ends with.
   */
  function ThrottleFrom(path: string, dir: Entry, i: nat, fileTypes: seq<string>, p: int, c: int): (nat, int)
    requires dir.Dir? && i <= |dir.children|
    decreases |dir.children| - i
  {
    if i == |dir.children| then (0, c)
    else
      var c1 := c + Direct(path, dir.children[i], fileTypes);
      var rest := ThrottleFrom(path, dir, i + 1, fileTypes, p, if c1 >= p then 0 else c1);
      ((if c1 >= p then 1 else 0) + rest.0, rest.1)
  }

  /** The loop's own pauses and its returned counter are those of the throttle counter. */
  lemma {:induction false} EntriesThrottle(path: string, dir: Entry, i: nat, cfg: Settings, seconds: int,
                                           table: Table, pauses: seq<Pause>, tally: Tally)
    requires dir.Dir? && i <= |dir.children| && WellFormed(dir)
    ensures var s := ScanEntries(path, dir, i, cfg, seconds, table, pauses, tally);
            var t := ThrottleFrom(path, dir, i, cfg.fileTypes, cfg.pauseAfter, tally.fileCount);
            s.result.Success? ==>
              PausesAt(s.pauses, path) == PausesAt(pauses, path) + t.0 && s.result.value.fileCount == t.1
    decreases |dir.children| - i
  {
    if i < |dir.children| {
      var entry := dir.children[i];
      var v := Visit(path, entry, cfg, seconds, table, pauses, tally);
      if v.result.Success? {
        var c1 := tally.fileCount + Direct(path, entry, cfg.fileTypes);
        assert v.result.value.fileCount == (if c1 >= cfg.pauseAfter then 0 else c1) by {
          VisitTally(path, entry, cfg, seconds, table, pauses, tally);
        }
        assert PausesAt(v.pauses, path) == PausesAt(pauses, path) + (if c1 >= cfg.pauseAfter then 1 else 0) by {
          VisitOwnPauses(path, entry, cfg, seconds, table, pauses, tally);
        }
        EntriesThrottle(path, dir, i + 1, cfg, seconds, v.table, v.pauses, v.result.value);
        ThrottleStep(path, dir, i, cfg.fileTypes, cfg.pauseAfter, tally.fileCount, v.result.value.fileCount);
        EntriesStep(path, dir, i, cfg, seconds, table, pauses, tally);
      }
    }
  }

  /** One entry's step of the directory loop. */
  lemma EntriesStep(path: string, dir: Entry, i: nat, cfg: Settings, seconds: int,
                    table: Table, pauses: seq<Pause>, tally: Tally)
    requires dir.Dir? && i < |dir.children|
    ensures var v := Visit(path, dir.children[i], cfg, seconds, table, pauses, tally);
            ScanEntries(path, dir, i, cfg, seconds, table, pauses, tally)
            == if v.result.Failure? then v else ScanEntries(path, dir, i + 1, cfg, seconds, v.table, v.pauses, v.result.value)
  {
  }

  /** One entry's step of the throttle counter. */
  lemma ThrottleStep(path: string, dir: Entry, i: nat, fileTypes: seq<string>, p: int, c: int, next: int)
    requires dir.Dir? && i < |dir.children|
    requires var c1 := c + Direct(path, dir.children[i], fileTypes); next == if c1 >= p then 0 else c1
    ensures var c1 := c + Direct(path, dir.children[i], fileTypes);
            var rest := ThrottleFrom(path, dir, i + 1, fileTypes, p, next);
            ThrottleFrom(path, dir, i, fileTypes, p, c) == ((if c1 >= p then 1 else 0) + rest.0, rest.1)
  {
  }

  /**
   * With `p` at least 1 and the counter starting below `p`, every pause stands for
   * `p` counted files, and what is left of the count stays below `p`.
   */
  lemma {:induction false} ThrottleArith(path: string, dir: Entry, i: nat, fileTypes: seq<string>, p: int, c: int)
    requires dir.Dir? && i <= |dir.children|
    requires p >= 1 && 0 <= c < p
    ensures var t := ThrottleFrom(path, dir, i, fileTypes, p, c);
            Times(t.0, p) + t.1 == c + DirectFrom(path, dir, i, fileTypes) && 0 <= t.1 < p
    decreases |dir.children| - i
  {
    if i == |dir.children| {
      assert Times(0, p) == 0;
    } else {
      var d := Direct(path, dir.children[i], fileTypes);
      var c1 := c + d;
      var next := if c1 >= p then 0 else c1;
      ThrottleArith(path, dir, i + 1, fileTypes, p, next);
      ThrottleStep(path, dir, i, fileTypes, p, c, next);
      var rest := ThrottleFrom(path, dir, i + 1, fileTypes, p, next);
      CountStep(p, c1, if c1 >= p then 1 else 0, next, rest.0, rest.1, DirectFrom(path, dir, i + 1, fileTypes));
    }
  }

  /** With `p` at most 0 the throttle pauses after every entry and ends at 0 once it has passed one. */
  lemma {:induction false} ThrottleAlways(path: string, dir: Entry, i: nat, fileTypes: seq<string>, p: int, c: int)
    requires dir.Dir? && i <= |dir.children|
    requires p <= 0 && c >= 0
    ensures var t := ThrottleFrom(path, dir, i, fileTypes, p, c);
            t.0 == |dir.children| - i && t.1 == (if i == |dir.children| then c else 0)
    decreases |dir.children| - i
  {
    if i < |dir.children| {
      ThrottleAlways(path, dir, i + 1, fileTypes, p, 0);
    }
  }

  /** `n * p`, spelled out as repeated addition. */
  function Times(n: nat, p: int): int
    decreases n
  {
    if n == 0 then 0 else p + Times(n - 1, p)
  }

  lemma {:induction false} TimesIsProduct(n: nat, p: int)
    ensures Times(n, p) == n * p
    decreases n
  {
    if n > 0 {
      TimesIsProduct(n - 1, p);
      assert n * p == p + (n - 1) * p;
    }
  }

  /** One entry's share of the count: the counter `c` either carries on or is traded for a pause. */
  lemma CountStep(p: int, c: int, own: nat, carried: int, later: nat, left: int, rest: int)
    requires p >= 1 && c <= p
    requires own == (if c >= p then 1 else 0) && carried == (if c >= p then 0 else c)
    requires Times(later, p) + left == carried + rest
    ensures Times(own + later, p) + left == c + rest
  {
    if own == 1 {
      assert Times(own + later, p) == p + Times(later, p);
    } else {
      assert own + later == later;
    }
  }

  /**
   * With `pauseAfter` at least 1, a scan of the start directory that returns
   * normally pauses in its own loop exactly (direct qualifying files) / `pauseAfter`
   * times and returns (direct qualifying files) % `pauseAfter`, which is below `pauseAfter`.
   */
  lemma ThrottleCount(path: string, node: Entry, cfg: Settings, seconds: int, table: Table, pauses: seq<Pause>)
    requires WellFormed(node) && cfg.pauseAfter >= 1
    ensures var s := ScanDir(path, node, cfg, seconds, table, pauses);
            var direct := DirectCount(path, node, cfg.fileTypes);
            s.result.Success? ==>
              && PausesAt(Added(s, pauses), path) == direct / cfg.pauseAfter
              && s.result.value.fileCount == direct % cfg.pauseAfter
              && 0 <= s.result.value.fileCount < cfg.pauseAfter
  {
    var s := ScanDir(path, node, cfg, seconds, table, pauses);
    if node.Dir? && s.result.Success? {
      EntriesThrottle(path, node, 0, cfg, seconds, table, pauses, Tally(0, Num(0)));
      ThrottleQuotient(path, node, cfg.fileTypes, cfg.pauseAfter);
      AddedCount(s, pauses, path);
    }
  }

  /** From the start the throttle pauses (count / `p`) times and is left with count % `p`. */
  lemma ThrottleQuotient(path: string, dir: Entry, fileTypes: seq<string>, p: int)
    requires dir.Dir? && p >= 1
    ensures var t := ThrottleFrom(path, dir, 0, fileTypes, p, 0);
            var d := DirectFrom(path, dir, 0, fileTypes);
            t.0 == d / p && t.1 == d % p
  {
    var t := ThrottleFrom(path, dir, 0, fileTypes, p, 0);
    ThrottleArith(path, dir, 0, fileTypes, p, 0);
    TimesIsProduct(t.0, p);
    DivUnique(DirectFrom(path, dir, 0, fileTypes), p, t.0, t.1);
  }

  /** With `pauseAfter` at most 0 the start directory's loop pauses once per entry and returns 0. */
  lemma PauseAfterNonPositive(path: string, node: Entry, cfg: Settings, seconds: int, table: Table, pauses: seq<Pause>)
    requires WellFormed(node) && node.Dir? && cfg.pauseAfter <= 0
    ensures var s := ScanDir(path, node, cfg, seconds, table, pauses);
            s.result.Success? ==>
              PausesAt(Added(s, pauses), path) == |node.children| && s.result.value.fileCount == 0
  {
    EntriesThrottle(path, node, 0, cfg, seconds, table, pauses, Tally(0, Num(0)));
    ThrottleAlways(path, node, 0, cfg.fileTypes, cfg.pauseAfter, 0);
    var s := ScanDir(path, node, cfg, seconds, table, pauses);
    AddedCount(s, pauses, path);
  }

  /**
   * `new_files` stays as it was until the first qualifying file directly in the
   * directory, after which it is NaN (it adds up the `undefined` that
   * `insert_file_data` returns); the tallies of subdirectories are discarded.
   */
  lemma {:induction false} EntriesNewFiles(path: string, dir: Entry, i: nat, cfg: Settings, seconds: int,
                                           table: Table, pauses: seq<Pause>, tally: Tally)
    requires dir.Dir? && i <= |dir.children|
    ensures var s := ScanEntries(path, dir, i, cfg, seconds, table, pauses, tally);
            s.result.Success? ==>
              s.result.value.newFiles == (if DirectFrom(path, dir, i, cfg.fileTypes) == 0 then tally.newFiles else NaN)
    decreases |dir.children| - i
  {
    if i < |dir.children| {
      var entry := dir.children[i];
      var v := Visit(path, entry, cfg, seconds, table, pauses, tally);
      if v.result.Success? {
        VisitTally(path, entry, cfg, seconds, table, pauses, tally);
        EntriesNewFiles(path, dir, i + 1, cfg, seconds, v.table, v.pauses, v.result.value);
      }
    }
  }

  /** `new_files` of a normal return: 0 without direct qualifying files, NaN otherwise. */
  lemma NewFilesOfScan(path: string, node: Entry, cfg: Settings, seconds: int, table: Table, pauses: seq<Pause>)
    ensures var s := ScanDir(path, node, cfg, seconds, table, pauses);
            s.result.Success? ==>
              s.result.value.newFiles == (if DirectCount(path, node, cfg.fileTypes) == 0 then Num(0) else NaN)
  {
    if node.Dir? {
      EntriesNewFiles(path, node, 0, cfg, seconds, table, pauses, Tally(0, Num(0)));
    }
  }

  /** Listing the start path throws when it is not a readable directory, and nothing is written. */
  lemma StartPathNotListable(path: string, node: Entry, cfg: Settings, seconds: int, table: Table, pauses: seq<Pause>)
    requires !node.Dir?
    ensures var s := ScanDir(path, node, cfg, seconds, table, pauses);
            s.result.Failure? && s.table == table && s.pauses == pauses
  {
  }
}
