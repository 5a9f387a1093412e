/**
 * The parts of Node's `path` module and of JavaScript's string methods that the
 * indexer relies on: `path.join`, `path.dirname`, `path.basename`, `path.extname`
 * (POSIX flavour), `toLowerCase` (ASCII only), `endsWith`, and the substring test
 * that SQL's `LIKE '%q%'` performs.
 */
module Paths {

  /** Index of the last occurrence of `c` in `s`, or -1 when there is none. */
  function LastIndexOf(s: string, c: char): (r: int)
    ensures -1 <= r < |s|
    ensures 0 <= r ==> s[r] == c
    ensures forall j :: r < j < |s| ==> s[j] != c
  {
    if |s| == 0 then -1
    else if s[|s| - 1] == c then |s| - 1
    else LastIndexOf(s[..|s| - 1], c)
  }

  /** `path.join(dir, name)` for a directory in normal form and a single entry name. */
  function Join(dir: string, name: string): string {
    if dir == "" then name
    else if dir[|dir| - 1] == '/' then dir + name
    else dir + "/" + name
  }

  /** `path.dirname(p)` for a path that does not end in a separator. */
  function Dirname(p: string): string {
    var i := LastIndexOf(p, '/');
    if i < 0 then "." else if i == 0 then "/" else p[..i]
  }

  /** `path.basename(p)` for a path that does not end in a separator. */
  function Basename(p: string): string {
    p[LastIndexOf(p, '/') + 1..]
  }

  /**
   * `path.extname(p)`: from the last '.' of the last path segment to the end; empty
   * when that segment has no '.', when its only '.' is its first character, or when
   * the segment is "..".
   */
  function Extname(p: string): string {
    var b := Basename(p);
    var d := LastIndexOf(b, '.');
    if d <= 0 || b == ".." then "" else b[d..]
  }

  /** A directory path as the scanner receives it: "/" or a path without a trailing '/'. */
  predicate NormalDir(dir: string) {
    dir == "/" || (dir != "" && dir[|dir| - 1] != '/')
  }

  /** A directory entry name as a filesystem lists it: non-empty, no separator. */
  predicate ValidName(name: string) {
    name != "" && '/' !in name
  }

  /** ASCII `toLowerCase` of one character. */
  function LowerChar(c: char): char {
    if 'A' <= c <= 'Z' then (c as int + 32) as char else c
  }

  predicate IsUpper(c: char) {
    'A' <= c <= 'Z'
  }

  /**
   * ASCII `toLowerCase` (and SQL `LOWER`) of a string: no capital is left, each
   * capital becomes the letter 32 code points above it, and every other character
   * stays where it was.
   */
  function Lower(s: string): (r: string)
    ensures |r| == |s|
    ensures forall i :: 0 <= i < |s| ==> !IsUpper(r[i])
    ensures forall i :: 0 <= i < |s| && !IsUpper(s[i]) ==> r[i] == s[i]
    ensures forall i :: 0 <= i < |s| && IsUpper(s[i]) ==> r[i] as int == s[i] as int + 32
  {
    seq(|s|, i requires 0 <= i < |s| => LowerChar(s[i]))
  }

  /** `s.endsWith(suffix)`. */
  predicate EndsWith(s: string, suffix: string) {
    |suffix| <= |s| && s[|s| - |suffix|..] == suffix
  }

  predicate StartsWith(s: string, prefix: string) {
    |prefix| <= |s| && s[..|prefix|] == prefix
  }

  /** `sub` occurs somewhere in `s`: the test `s LIKE '%' || sub || '%'` makes. */
  predicate Contains(s: string, sub: string)
    decreases |s|
  {
    StartsWith(s, sub) || (|s| > 0 && Contains(s[1..], sub))
  }

  /** Joining a name onto a normal directory and splitting the result gives both back. */
  lemma JoinSplits(dir: string, name: string)
    requires NormalDir(dir) && ValidName(name)
    ensures Dirname(Join(dir, name)) == dir
    ensures Basename(Join(dir, name)) == name
    ensures Extname(Join(dir, name)) == Extname(name)
  {
    var p := Join(dir, name);
    var sep := if dir == "/" then 0 else |dir|;
    assert p == dir[..sep] + "/" + name;
    forall j | sep < j < |p| ensures p[j] != '/' {
      assert p[j] == name[j - sep - 1];
    }
    assert p[sep] == '/';
    var r := LastIndexOf(p, '/');
    assert r == sep;
    assert p[sep + 1..] == name;
    assert LastIndexOf(name, '/') == -1;
    assert name[0..] == name;
  }

  /** A name without any '.' has an empty extension. */
  lemma NoDotNoExtension(name: string)
    requires '.' !in name
    ensures Extname(name) == ""
  {
    var b := Basename(name);
    assert forall j | 0 <= j < |b| :: b[j] in name;
    assert LastIndexOf(b, '.') == -1;
  }

  /** A suffix of the lower-cased name is a suffix of the lower-cased joined path. */
  lemma JoinKeepsSuffix(dir: string, name: string, suffix: string)
    requires EndsWith(Lower(name), suffix)
    ensures EndsWith(Lower(Join(dir, name)), suffix)
  {
    var p := Join(dir, name);
    var off := |p| - |name|;
    assert p[off..] == name;
    LowerDrop(p, off);
    var lp := Lower(p);
    assert lp[|lp| - |suffix|..] == lp[off..][|name| - |suffix|..];
  }

  /** Lower-casing commutes with dropping a prefix. */
  lemma LowerDrop(s: string, k: nat)
    requires k <= |s|
    ensures Lower(s)[k..] == Lower(s[k..])
  {
  }

  /** A joined path starts with the directory it was joined onto. */
  lemma JoinStartsWith(dir: string, name: string)
    ensures StartsWith(Join(dir, name), dir)
  {
    var p := Join(dir, name);
    assert p[..|dir|] == dir;
  }

  lemma StartsWithTransitive(a: string, b: string, c: string)
    requires StartsWith(a, b) && StartsWith(b, c)
    ensures StartsWith(a, c)
  {
    assert a[..|c|] == a[..|b|][..|c|];
  }

  /** A joined path is longer than the directory it was joined onto. */
  lemma JoinGrows(dir: string, name: string)
    requires name != ""
    ensures |Join(dir, name)| > |dir|
  {
  }

  /** Lower-casing twice is lower-casing once. */
  lemma LowerIdempotent(s: string)
    ensures Lower(Lower(s)) == Lower(s)
  {
  }

  /**
   * A suffix holding an upper-case letter never ends a lower-cased string: only the
   * path is lower-cased before `endsWith`, the configured extension is not.
   */
  lemma UpperSuffixNeverMatches(s: string, suffix: string, k: int)
    requires 0 <= k < |suffix| && IsUpper(suffix[k])
    ensures !EndsWith(Lower(s), suffix)
  {
    if |suffix| <= |s| {
      assert !IsUpper(Lower(s)[|s| - |suffix| + k]);
    }
  }
}
