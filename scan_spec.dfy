/**
 * What one call of `searchFiles(startPath, fileTypes, pauseAfter, pauseTimeSeconds)`
 * does, as a function of the directory tree it lists and the state it starts from:
 * the rows it leaves in `images`, the pauses it takes and the tally it returns or
 * the error it throws. Also the reference listing of the files it records, depth-first.
 */
module ScanSpec {
  import opened Wrappers
  import opened Paths
  import opened Images

  /** What `fs.statSync` reports about a file. */
  datatype Stat = Stat(size: nat, birthtime: Timestamp, mtime: Timestamp, atime: Timestamp)

  /**
   * A directory entry together with what lies below it. `Unreadable` is an entry on
   * which `fs.statSync` or `fs.readdirSync` throws, with the error's message.
   */
  datatype Entry =
    | File(name: string, stat: Stat)
    | Dir(name: string, children: seq<Entry>)
    | Unreadable(name: string, message: string)

  /** One `setTimeout` pause, tagged with the directory whose loop took it. */
  datatype Pause = Pause(dir: string, seconds: int)

  /** What `searchFiles` returns: the counter's final value and `new_files`. */
  datatype Tally = Tally(fileCount: int, newFiles: JsNumber)

  /** The parameters every level of the recursion shares. */
  datatype Settings = Settings(fileTypes: seq<string>, pauseAfter: int, now: Timestamp)

  /** The state after a call, with its outcome. */
  datatype Scan = Scan(table: Table, pauses: seq<Pause>, result: Result<Tally>)

  /** `pauseTimeSeconds` when a call leaves it out, as every recursive call does. */
  const DefaultPauseSeconds: int := 5

  /** The message Node's `readdirSync(path)` throws when `path` names a file. */
  function NotADirectory(path: string): string {
    "ENOTDIR: not a directory, scandir '" + path + "'"
  }

  /** Every name listed below `e` is one a filesystem can list: non-empty, without '/'. */
  predicate WellFormed(e: Entry)
    decreases e
  {
    e.Dir? ==> forall i | 0 <= i < |e.children| :: ValidName(e.children[i].name) && WellFormed(e.children[i])
  }

  /** `fileTypes.some(ext => filePath.toLowerCase().endsWith(ext))`. */
  predicate Qualifies(filePath: string, fileTypes: seq<string>)
    decreases |fileTypes|
  {
    fileTypes != [] && (EndsWith(Lower(filePath), fileTypes[0]) || Qualifies(filePath, fileTypes[1..]))
  }

  /** The record built for a qualifying file. */
  function FileRecord(filePath: string, stat: Stat): FileData {
    FileData(Basename(filePath), stat.size, stat.birthtime, stat.mtime, stat.atime,
             Dirname(filePath), Extname(filePath))
  }

  /** The throttle check after each entry: pause and reset once the counter reaches `pauseAfter`. */
  function Checkpoint(dir: string, pauseAfter: int, seconds: int, pauses: seq<Pause>, tally: Tally): (seq<Pause>, Tally) {
    if tally.fileCount >= pauseAfter then (pauses + [Pause(dir, seconds)], tally.(fileCount := 0))
    else (pauses, tally)
  }

  /** `searchFiles(path, ...)` on the entry found at `path`. */
  function ScanDir(path: string, node: Entry, cfg: Settings, seconds: int, table: Table, pauses: seq<Pause>): (s: Scan)
    ensures pauses <= s.pauses
    decreases node, 1, 0
  {
    match node
    case Dir(_, _) => ScanEntries(path, node, 0, cfg, seconds, table, pauses, Tally(0, Num(0)))
    case File(_, _) => Scan(table, pauses, Failure(NotADirectory(path)))
    case Unreadable(_, message) => Scan(table, pauses, Failure(message))
  }

  /** The loop of `searchFiles` from entry `i` of `dir` on; it stops at the first error. */
  function ScanEntries(path: string, dir: Entry, i: nat, cfg: Settings, seconds: int,
                       table: Table, pauses: seq<Pause>, tally: Tally): (s: Scan)
    requires dir.Dir? && i <= |dir.children|
    ensures pauses <= s.pauses
    decreases dir, 0, |dir.children| - i
  {
    if i == |dir.children| then Scan(table, pauses, Success(tally))
    else
      var v := Visit(path, dir.children[i], cfg, seconds, table, pauses, tally);
      if v.result.Failure? then v
      else ScanEntries(path, dir, i + 1, cfg, seconds, v.table, v.pauses, v.result.value)
  }

  /**
   * One pass of the loop body for `entry`, listed in the directory `path`: stat it;
   * recurse into a directory (with the default pause), or upsert a qualifying file
   * and count it; then the throttle check.
   */
  function Visit(path: string, entry: Entry, cfg: Settings, seconds: int,
                 table: Table, pauses: seq<Pause>, tally: Tally): (s: Scan)
    ensures pauses <= s.pauses
    decreases entry, 2, 0
  {
    var filePath := Join(path, entry.name);
    match entry
    case Unreadable(_, message) => Scan(table, pauses, Failure(message))
    case Dir(_, _) =>
      var sub := ScanDir(filePath, entry, cfg, DefaultPauseSeconds, table, pauses);
      if sub.result.Failure? then sub
      else
        var (pauses', tally') := Checkpoint(path, cfg.pauseAfter, seconds, sub.pauses, tally);
        Scan(sub.table, pauses', Success(tally'))
    case File(_, stat) =>
      var q := Qualifies(filePath, cfg.fileTypes);
      var table' := if q then Upsert(table, FileRecord(filePath, stat), cfg.now) else table;
      var counted := if q then Tally(tally.fileCount + 1, NaN) else tally;
      var (pauses', tally') := Checkpoint(path, cfg.pauseAfter, seconds, pauses, counted);
      Scan(table', pauses', Success(tally'))
  }

  /**
   * Reference listing: the records of the qualifying files under the directory at
   * `path`, depth-first in listing order, entries that cannot be read left out.
   */
  function Walk(path: string, node: Entry, fileTypes: seq<string>): seq<FileData>
    decreases node, 1, 0
  {
    if node.Dir? then WalkEntries(path, node, 0, fileTypes) else []
  }

  function WalkEntries(path: string, dir: Entry, i: nat, fileTypes: seq<string>): seq<FileData>
    requires dir.Dir? && i <= |dir.children|
    decreases dir, 0, |dir.children| - i
  {
    if i == |dir.children| then []
    else WalkEntry(path, dir.children[i], fileTypes) + WalkEntries(path, dir, i + 1, fileTypes)
  }

  /** The records contributed by one entry listed in `path`: the file itself, or everything below a directory. */
  function WalkEntry(path: string, entry: Entry, fileTypes: seq<string>): seq<FileData>
    decreases entry, 2, 0
  {
    var filePath := Join(path, entry.name);
    match entry
    case File(_, stat) => if Qualifies(filePath, fileTypes) then [FileRecord(filePath, stat)] else []
    case Dir(_, _) => Walk(filePath, entry, fileTypes)
    case Unreadable(_, _) => []
  }

  /** 1 when `entry`, listed in `path`, is a qualifying file, else 0. */
  function Direct(path: string, entry: Entry, fileTypes: seq<string>): nat {
    if entry.File? && Qualifies(Join(path, entry.name), fileTypes) then 1 else 0
  }

  /** The number of qualifying files directly in `dir`, from entry `i` on. */
  function DirectFrom(path: string, dir: Entry, i: nat, fileTypes: seq<string>): nat
    requires dir.Dir? && i <= |dir.children|
    decreases |dir.children| - i
  {
    if i == |dir.children| then 0
    else Direct(path, dir.children[i], fileTypes) + DirectFrom(path, dir, i + 1, fileTypes)
  }

  /** The number of qualifying files directly in the directory `node`. */
  function DirectCount(path: string, node: Entry, fileTypes: seq<string>): nat {
    if node.Dir? then DirectFrom(path, node, 0, fileTypes) else 0
  }

  /** How many of `pauses` were taken by the loop of the directory `dir`. */
  function PausesAt(pauses: seq<Pause>, dir: string): nat {
    if pauses == [] then 0
    else (if pauses[0].dir == dir then 1 else 0) + PausesAt(pauses[1..], dir)
  }
}
