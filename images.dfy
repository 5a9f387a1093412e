/**
 * The `images` table and its upsert `insert_file_data`: one row per (path, filename),
 * enforced by the UNIQUE (path, filename) constraint, inserted on first sighting and
 * refreshed in place afterwards.
 */
module Images {

  /** Timestamps are carried as the opaque ISO strings the scanner produces. */
  type Timestamp = string

  /** The unique key of a row: (directory path, file name). */
  type Key = (string, string)

  /** The record the scanner builds for one file. */
  datatype FileData = FileData(
    filename: string, size: nat, created: Timestamp, modified: Timestamp,
    accessed: Timestamp, path: string, extension: string)

  /** One row of `images`; `id` is SERIAL and `indexed` defaults to the insert time. */
  datatype Row = Row(
    id: nat, filename: string, size: nat, created: Timestamp, modified: Timestamp,
    accessed: Timestamp, indexed: Timestamp, path: string, extension: string)

  /** The table's rows by key, and the next value of the `id` sequence. */
  datatype Table = Table(rows: map<Key, Row>, nextId: nat)

  /** The largest value of a PostgreSQL INTEGER column (the type of `size`). */
  const MaxInteger: int := 0x7fff_ffff

  function KeyOf(d: FileData): Key {
    (d.path, d.filename)
  }

  /** Every row sits under its own (path, filename) and has an id the sequence already issued, no two alike. */
  ghost predicate WellKeyed(t: Table) {
    && (forall k | k in t.rows :: t.rows[k].path == k.0 && t.rows[k].filename == k.1 && t.rows[k].id < t.nextId)
    && (forall k1, k2 | k1 in t.rows && k2 in t.rows && k1 != k2 :: t.rows[k1].id != t.rows[k2].id)
  }

  /**
   * INSERT ... ON CONFLICT (path, filename) DO UPDATE SET size, created, modified,
   * accessed, extension. A size outside INTEGER makes the statement fail; the error
   * is caught and logged and the table is left as it was. Otherwise the sequence
   * behind `id` is advanced whether the row is inserted or updated.
   */
  function Upsert(t: Table, d: FileData, now: Timestamp): Table {
    if d.size > MaxInteger then t
    else
      var k := KeyOf(d);
      if k in t.rows then
        var r := t.rows[k];
        Table(t.rows[k := r.(size := d.size, created := d.created, modified := d.modified,
                             accessed := d.accessed, extension := d.extension)], t.nextId + 1)
      else
        Table(t.rows[k := Row(t.nextId, d.filename, d.size, d.created, d.modified, d.accessed,
                              now, d.path, d.extension)], t.nextId + 1)
  }

  /** The upsert keeps the table well keyed. */
  lemma UpsertKeepsWellKeyed(t: Table, d: FileData, now: Timestamp)
    requires WellKeyed(t)
    ensures WellKeyed(Upsert(t, d, now))
  {
    var u := Upsert(t, d, now);
    var k := KeyOf(d);
    if d.size <= MaxInteger {
      forall k1 | k1 in u.rows ensures u.rows[k1].path == k1.0 && u.rows[k1].filename == k1.1 && u.rows[k1].id < u.nextId {
        if k1 != k { assert u.rows[k1] == t.rows[k1]; }
      }
      forall k1, k2 | k1 in u.rows && k2 in u.rows && k1 != k2 ensures u.rows[k1].id != u.rows[k2].id {
        if k1 != k && k2 != k {
          assert u.rows[k1] == t.rows[k1] && u.rows[k2] == t.rows[k2];
        } else if k1 == k {
          assert u.rows[k2] == t.rows[k2];
        } else {
          assert u.rows[k1] == t.rows[k1];
        }
      }
    }
  }

  /**
   * After a storable upsert the row under the record's key holds the record's
   * size, times and extension; `id`, `indexed`, `path` and `filename` are those of
   * the existing row, and a new row gets the next id and `now` as its `indexed`.
   */
  lemma UpsertRow(t: Table, d: FileData, now: Timestamp)
    requires WellKeyed(t) && d.size <= MaxInteger
    ensures var u := Upsert(t, d, now); var r := u.rows[KeyOf(d)];
      && KeyOf(d) in u.rows
      && r.size == d.size && r.created == d.created && r.modified == d.modified
      && r.accessed == d.accessed && r.extension == d.extension
      && r.path == d.path && r.filename == d.filename
      && (KeyOf(d) in t.rows ==> r.id == t.rows[KeyOf(d)].id && r.indexed == t.rows[KeyOf(d)].indexed)
      && (KeyOf(d) !in t.rows ==> r.id == t.nextId && r.indexed == now)
  {
  }

  /** A new key adds exactly one row; an existing key leaves the row count as it was. */
  lemma UpsertCount(t: Table, d: FileData, now: Timestamp)
    requires d.size <= MaxInteger
    ensures |Upsert(t, d, now).rows| == if KeyOf(d) in t.rows then |t.rows| else |t.rows| + 1
  {
  }

  /** Rows under any other key are not touched, and no key disappears. */
  lemma UpsertFrame(t: Table, d: FileData, now: Timestamp)
    ensures Upsert(t, d, now).rows.Keys == t.rows.Keys + (if d.size <= MaxInteger then {KeyOf(d)} else {})
    ensures forall k | k in t.rows && k != KeyOf(d) :: Upsert(t, d, now).rows[k] == t.rows[k]
  {
  }

  /** Upserting the same record twice leaves the same rows as upserting it once. */
  lemma UpsertIdempotent(t: Table, d: FileData, now: Timestamp, later: Timestamp)
    ensures Upsert(Upsert(t, d, now), d, later).rows == Upsert(t, d, now).rows
  {
  }

  /** Upserts of a sequence of records, in order. */
  function UpsertAll(t: Table, ds: seq<FileData>, now: Timestamp): Table
    decreases |ds|
  {
    if ds == [] then t else UpsertAll(Upsert(t, ds[0], now), ds[1..], now)
  }

  /** The keys of a sequence of records that the table can store. */
  function StorableKeys(ds: seq<FileData>): set<Key> {
    set i | 0 <= i < |ds| && ds[i].size <= MaxInteger :: KeyOf(ds[i])
  }

  /** Upserting `a` and then `b` is upserting `a + b`. */
  lemma {:induction false} UpsertAllAppend(t: Table, a: seq<FileData>, b: seq<FileData>, now: Timestamp)
    ensures UpsertAll(t, a + b, now) == UpsertAll(UpsertAll(t, a, now), b, now)
    decreases |a|
  {
    if a != [] {
      assert (a + b)[1..] == a[1..] + b;
      UpsertAllAppend(Upsert(t, a[0], now), a[1..], b, now);
    } else {
      assert a + b == b;
    }
  }

  /** The storable keys of a non-empty batch: its first record's, if storable, and the rest's. */
  lemma StorableKeysCons(ds: seq<FileData>)
    requires ds != []
    ensures StorableKeys(ds) == (if ds[0].size <= MaxInteger then {KeyOf(ds[0])} else {}) + StorableKeys(ds[1..])
  {
    var first := if ds[0].size <= MaxInteger then {KeyOf(ds[0])} else {};
    forall k | k in StorableKeys(ds) ensures k in first + StorableKeys(ds[1..]) {
      var i :| 0 <= i < |ds| && ds[i].size <= MaxInteger && k == KeyOf(ds[i]);
      if i > 0 { assert ds[1..][i - 1] == ds[i]; }
    }
    forall k | k in StorableKeys(ds[1..]) ensures k in StorableKeys(ds) {
      var i :| 0 <= i < |ds[1..]| && ds[1..][i].size <= MaxInteger && k == KeyOf(ds[1..][i]);
      assert ds[i + 1] == ds[1..][i];
    }
  }

  /** After a batch of upserts the table holds exactly the old keys and those of the storable records. */
  lemma {:induction false} UpsertAllKeys(t: Table, ds: seq<FileData>, now: Timestamp)
    ensures UpsertAll(t, ds, now).rows.Keys == t.rows.Keys + StorableKeys(ds)
    decreases |ds|
  {
    if ds != [] {
      UpsertFrame(t, ds[0], now);
      UpsertAllKeys(Upsert(t, ds[0], now), ds[1..], now);
      StorableKeysCons(ds);
    } else {
      assert StorableKeys(ds) == {};
    }
  }

  /** A batch of upserts keeps the table well keyed. */
  lemma {:induction false} UpsertAllKeepsWellKeyed(t: Table, ds: seq<FileData>, now: Timestamp)
    requires WellKeyed(t)
    ensures WellKeyed(UpsertAll(t, ds, now))
    decreases |ds|
  {
    if ds != [] {
      UpsertKeepsWellKeyed(t, ds[0], now);
      UpsertAllKeepsWellKeyed(Upsert(t, ds[0], now), ds[1..], now);
    }
  }

  /** The `images` table as a store object that `insert_file_data` updates in place. */
  class ImageStore {
    var rows: map<Key, Row>
    var nextId: nat

    function Snapshot(): Table
      reads this
    {
      Table(rows, nextId)
    }

    ghost predicate Valid()
      reads this
    {
      WellKeyed(Snapshot())
    }

    /** An empty table whose SERIAL sequence starts at 1. */
    constructor ()
      ensures Valid() && rows == map[] && nextId == 1
    {
      rows := map[];
      nextId := 1;
    }

    /** `insert_file_data(file_data)`; it returns nothing to its caller. */
    method InsertFileData(d: FileData, now: Timestamp)
      requires Valid()
      modifies this
      ensures Valid()
      ensures Snapshot() == Upsert(old(Snapshot()), d, now)
    {
      UpsertKeepsWellKeyed(Snapshot(), d, now);
      if d.size > MaxInteger {
        return;
      }
      var k := KeyOf(d);
      if k in rows {
        var r := rows[k];
        rows := rows[k := r.(size := d.size, created := d.created, modified := d.modified,
                             accessed := d.accessed, extension := d.extension)];
      } else {
        rows := rows[k := Row(nextId, d.filename, d.size, d.created, d.modified, d.accessed,
                              now, d.path, d.extension)];
      }
      nextId := nextId + 1;
    }
  }
}
