/**
 * The `images` table behind DatabaseService, held in memory instead of SQLite.
 *
 *   images(id INTEGER PRIMARY KEY AUTOINCREMENT, uri TEXT NOT NULL,
 *          timestamp DATETIME DEFAULT CURRENT_TIMESTAMP,
 *          latitude REAL, longitude REAL)
 *
 * AUTOINCREMENT keeps the largest id ever handed out (SQLite's
 * sqlite_sequence entry), so a new row gets one more than that and ids of
 * deleted rows never come back. The clock is a parameter.
 */
module PhotoStore {
  import opened Wrappers
  import opened Records

  /** The columns the CREATE TABLE statement declares. */
  const ImagesColumns: seq<string> := ["id", "uri", "timestamp", "latitude", "longitude"]

  /** The column list of the INSERT that `addImage` runs. */
  const AddImageColumns: seq<string> := ["uri", "latitude", "longitude", "date", "time"]

  /** The column list of the insert `addImage` evidently means. */
  const IntendedColumns: seq<string> := ["uri", "latitude", "longitude"]

  datatype StoreError =
    | NoSuchColumn(column: string)   // "table images has no column named …", raised when the statement is prepared
    | NotNull(column: string)        // "NOT NULL constraint failed: images.…"

  /** The first column of an INSERT column list that the table lacks, as SQLite reports it. */
  function UnknownColumn(columns: seq<string>): (r: Option<string>)
    ensures r.None? <==> forall c :: c in columns ==> c in ImagesColumns
    ensures r.Some? ==> r.value in columns && r.value !in ImagesColumns
  {
    if columns == [] then None
    else if columns[0] in ImagesColumns then UnknownColumn(columns[1..])
    else Some(columns[0])
  }

  /** The statement `addImage` runs cannot be prepared: `date` is not a column. */
  lemma AddImageStatementRejected()
    ensures UnknownColumn(AddImageColumns) == Some("date")
  {
    assert AddImageColumns[0] in ImagesColumns;
    assert AddImageColumns[1] in ImagesColumns;
    assert AddImageColumns[2] in ImagesColumns;
    assert AddImageColumns[3] !in ImagesColumns;
    assert AddImageColumns[3..][1..] == ["time"];
  }

  /** The intended column list only names columns the table has. */
  lemma IntendedStatementAccepted()
    ensures UnknownColumn(IntendedColumns) == None
  {
  }

  /** Rows in primary-key order, each id a positive key. */
  ghost predicate IdsAscending(rows: seq<ImageRecord>) {
    forall i, j :: 0 <= i < j < |rows| ==> rows[i].id < rows[j].id
  }

  /** Newest first: `ORDER BY timestamp DESC`, with nothing said about equal timestamps. */
  ghost predicate NewestFirst(rows: seq<ImageRecord>) {
    forall i, j :: 0 <= i < j < |rows| ==> rows[i].timestamp >= rows[j].timestamp
  }

  /** What `getImages` may return for a table: every row once, newest first. */
  ghost predicate IsListing(result: seq<ImageRecord>, rows: seq<ImageRecord>) {
    multiset(result) == multiset(rows) && NewestFirst(result)
  }

  /** Places a row into a newest-first listing, in front of the first row that is not newer. */
  function InsertByTimestamp(row: ImageRecord, sorted: seq<ImageRecord>): (r: seq<ImageRecord>)
    requires NewestFirst(sorted)
    ensures multiset(r) == multiset(sorted) + multiset{row}
    ensures NewestFirst(r)
  {
    if sorted == [] || row.timestamp >= sorted[0].timestamp then
      NewerInFront(row, sorted);
      [row] + sorted
    else
      var rest := InsertByTimestamp(row, sorted[1..]);
      NotNewerThanHead(row, sorted, rest);
      assert sorted == [sorted[0]] + sorted[1..];
      [sorted[0]] + rest
  }

  /** A row at least as new as the head of a newest-first listing can go in front of it. */
  lemma NewerInFront(row: ImageRecord, sorted: seq<ImageRecord>)
    requires NewestFirst(sorted) && (sorted == [] || row.timestamp >= sorted[0].timestamp)
    ensures NewestFirst([row] + sorted)
  {
    var s := [row] + sorted;
    forall i, j | 0 <= i < j < |s| ensures s[i].timestamp >= s[j].timestamp {
      assert s[j] == sorted[j - 1];
      if i > 0 { assert s[i] == sorted[i - 1]; } else if j > 1 { assert sorted[0].timestamp >= sorted[j - 1].timestamp; }
    }
  }

  /** Every row of `rest`, a reordering of the tail plus an older row, is no newer than the head. */
  lemma NotNewerThanHead(row: ImageRecord, sorted: seq<ImageRecord>, rest: seq<ImageRecord>)
    requires sorted != [] && NewestFirst(sorted) && row.timestamp < sorted[0].timestamp
    requires multiset(rest) == multiset(sorted[1..]) + multiset{row}
    requires NewestFirst(rest)
    ensures NewestFirst([sorted[0]] + rest)
  {
    forall x | x in rest ensures x.timestamp <= sorted[0].timestamp {
      assert x in multiset(rest);
      if x != row {
        assert x in multiset(sorted[1..]);
        var k :| 0 <= k < |sorted[1..]| && sorted[1..][k] == x;
        assert sorted[k + 1] == x;
      }
    }
    var s := [sorted[0]] + rest;
    forall i, j | 0 <= i < j < |s| ensures s[i].timestamp >= s[j].timestamp {
      assert s[j] == rest[j - 1];
      if i > 0 { assert s[i] == rest[i - 1]; }
    }
  }

  /** One order in which SQLite may answer `ORDER BY timestamp DESC`. */
  function SortByTimestamp(rows: seq<ImageRecord>): (r: seq<ImageRecord>)
    ensures IsListing(r, rows)
  {
    if rows == [] then []
    else
      assert rows == [rows[0]] + rows[1..];
      InsertByTimestamp(rows[0], SortByTimestamp(rows[1..]))
  }

  /** After an insert, a listing shows the new row and exactly one row more than before. */
  lemma ListingAfterInsert(r: seq<ImageRecord>, rows: seq<ImageRecord>, row: ImageRecord)
    requires IsListing(r, rows + [row])
    ensures row in r && |r| == |rows| + 1
  {
    assert row in multiset(rows + [row]);
    assert |r| == |multiset(r)| == |multiset(rows + [row])| == |rows + [row]|;
  }

  /** A table holding a single row lists exactly that row, with all its fields. */
  lemma ListingOfOneRow(r: seq<ImageRecord>, row: ImageRecord)
    requires IsListing(r, [row])
    ensures r == [row]
  {
    assert |r| == |multiset(r)| == |multiset([row])| == 1;
    assert r[0] in multiset(r);
  }

  /** `DELETE FROM images WHERE id = ?` on the rows in key order. */
  function WithoutId(rows: seq<ImageRecord>, id: int): (r: seq<ImageRecord>)
    ensures forall x :: x in r <==> x in rows && x.id != id
    ensures (forall x :: x in rows ==> x.id != id) ==> r == rows
  {
    if rows == [] then []
    else if rows[0].id == id then WithoutId(rows[1..], id)
    else
      assert rows == [rows[0]] + rows[1..];
      [rows[0]] + WithoutId(rows[1..], id)
  }

  /** Deleting keeps the remaining rows in key order. */
  lemma {:induction false} WithoutIdKeepsOrder(rows: seq<ImageRecord>, id: int)
    requires IdsAscending(rows)
    ensures IdsAscending(WithoutId(rows, id))
  {
    if rows != [] {
      var tail := rows[1..];
      TailAscending(rows);
      WithoutIdKeepsOrder(tail, id);
      if rows[0].id != id {
        var rest := WithoutId(tail, id);
        forall x | x in rest ensures rows[0].id < x.id {
          var k :| 0 <= k < |tail| && tail[k] == x;
          assert rows[k + 1] == x;
        }
        PrependAscending(rows[0], rest);
      }
    }
  }

  lemma TailAscending(rows: seq<ImageRecord>)
    requires rows != [] && IdsAscending(rows)
    ensures IdsAscending(rows[1..])
  {
    forall i, j | 0 <= i < j < |rows[1..]| ensures rows[1..][i].id < rows[1..][j].id {
      assert rows[1..][i] == rows[i + 1] && rows[1..][j] == rows[j + 1];
    }
  }

  lemma PrependAscending(row: ImageRecord, rest: seq<ImageRecord>)
    requires IdsAscending(rest) && forall x :: x in rest ==> row.id < x.id
    ensures IdsAscending([row] + rest)
  {
    var s := [row] + rest;
    forall i, j | 0 <= i < j < |s| ensures s[i].id < s[j].id {
      assert s[j] == rest[j - 1];
      if i > 0 { assert s[i] == rest[i - 1]; }
    }
  }

  /** Deleting keeps the other rows in their order: deletion distributes over concatenation. */
  lemma {:induction false} WithoutIdOfConcat(a: seq<ImageRecord>, b: seq<ImageRecord>, id: int)
    ensures WithoutId(a + b, id) == WithoutId(a, id) + WithoutId(b, id)
  {
    if a == [] {
      assert a + b == b;
    } else {
      assert (a + b)[1..] == a[1..] + b;
      WithoutIdOfConcat(a[1..], b, id);
    }
  }

  /** Deleting the same id twice is the same as deleting it once. */
  lemma DeleteIdempotent(rows: seq<ImageRecord>, id: int)
    ensures WithoutId(WithoutId(rows, id), id) == WithoutId(rows, id)
  {
  }

  /** After a delete, no listing shows the deleted id, and every other row is still listed. */
  lemma ListingAfterDelete(r: seq<ImageRecord>, rows: seq<ImageRecord>, id: int)
    requires IsListing(r, WithoutId(rows, id))
    ensures forall x :: x in r ==> x.id != id
    ensures forall x :: x in rows && x.id != id ==> x in r
  {
    forall x | x in r ensures x.id != id {
      assert x in multiset(r);
      assert x in WithoutId(rows, id);
    }
    forall x | x in rows && x.id != id ensures x in r {
      assert x in WithoutId(rows, id);
      assert x in multiset(WithoutId(rows, id));
    }
  }

  /**
   * The rows after `UPDATE images SET name = ? WHERE id = ?`, the statement
   * `updateImageName(id, name)` evidently means (on a table with a nullable
   * `name` column): the row with that id takes the name, all else stays.
   */
  function Renamed(rows: seq<ImageRecord>, id: int, name: string): (r: seq<ImageRecord>)
    ensures |r| == |rows|
    ensures forall i :: 0 <= i < |rows| ==>
              r[i] == if rows[i].id == id then rows[i].(name := Some(name)) else rows[i]
  {
    if rows == [] then []
    else
      var head := if rows[0].id == id then rows[0].(name := Some(name)) else rows[0];
      [head] + Renamed(rows[1..], id, name)
  }

  /** Renaming keeps every id where it was, so key order and issued ids survive it. */
  lemma RenamedKeepsIds(rows: seq<ImageRecord>, id: int, name: string, issued: set<int>)
    requires IdsAscending(rows) && forall x :: x in rows ==> x.id in issued
    ensures IdsAscending(Renamed(rows, id, name))
    ensures forall x :: x in Renamed(rows, id, name) ==> x.id in issued
  {
    var r := Renamed(rows, id, name);
    forall i, j | 0 <= i < j < |r| ensures r[i].id < r[j].id {
      assert r[i].id == rows[i].id && r[j].id == rows[j].id;
    }
    forall x | x in r ensures x.id in issued {
      var i :| 0 <= i < |r| && r[i] == x;
      assert rows[i] in rows;
    }
  }

  /** Renaming twice keeps only the last name. */
  lemma {:induction false} RenameLastWins(rows: seq<ImageRecord>, id: int, first: string, second: string)
    ensures Renamed(Renamed(rows, id, first), id, second) == Renamed(rows, id, second)
  {
    var a := Renamed(Renamed(rows, id, first), id, second);
    var b := Renamed(rows, id, second);
    assert |a| == |b|;
    forall i | 0 <= i < |a| ensures a[i] == b[i] {
    }
  }

  /** Deleting a renamed image leaves what deleting it unrenamed leaves. */
  lemma {:induction false} DeleteAfterRename(rows: seq<ImageRecord>, id: int, name: string)
    ensures WithoutId(Renamed(rows, id, name), id) == WithoutId(rows, id)
  {
    if rows != [] {
      assert Renamed(rows, id, name)[1..] == Renamed(rows[1..], id, name);
      DeleteAfterRename(rows[1..], id, name);
    }
  }

  /** The table: its rows in key order and the AUTOINCREMENT counter. */
  class ImageTable {
    var rows: seq<ImageRecord>
    var lastId: int
    /** Every id the table has ever handed out. */
    ghost var issued: set<int>

    ghost predicate Valid()
      reads this
    {
      && 0 <= lastId
      && (forall x :: x in issued ==> 1 <= x <= lastId)
      && (forall r :: r in rows ==> r.id in issued)
      && IdsAscending(rows)
    }

    /** A freshly created table: no rows, no id handed out yet. */
    constructor ()
      ensures Valid()
      ensures rows == [] && issued == {} && lastId == 0
    {
      rows, lastId, issued := [], 0, {};
    }

    /**
     * `addImage` as written: its INSERT names `date` and `time`, which the
     * table does not have, so preparing it fails before any row is touched,
     * whatever the arguments.
     */
    method AddImage(uri: Option<string>, latitude: Option<real>, longitude: Option<real>,
                    date: Option<string>, time: Option<string>)
      returns (r: Result<int, StoreError>)
      ensures r == Failure(NoSuchColumn("date"))
    {
      var unknown := UnknownColumn(AddImageColumns);
      AddImageStatementRejected();
      r := Failure(NoSuchColumn(unknown.value));
    }

    /**
     * The insert `addImage` evidently intends: (uri, latitude, longitude),
     * with `timestamp` left to its default, the current time `now`.
     */
    method InsertImage(uri: Option<string>, latitude: Option<real>, longitude: Option<real>, now: int)
      returns (r: Result<int, StoreError>)
      requires Valid()
      modifies this
      ensures Valid()
      ensures uri.None? ==> r == Failure(NotNull("uri")) && unchanged(this)
      ensures uri.Some? ==>
        && r == Success(old(lastId) + 1)
        && (forall x :: x in old(issued) ==> x < r.value)
        && rows == old(rows) + [ImageRecord(r.value, uri.value, now, latitude, longitude, None)]
        && issued == old(issued) + {r.value}
        && lastId == r.value
    {
      if uri.None? {
        return Failure(NotNull("uri"));
      }
      var id := lastId + 1;
      rows := rows + [ImageRecord(id, uri.value, now, latitude, longitude, None)];
      lastId, issued := id, issued + {id};
      r := Success(id);
    }

    /** `getImages`: every row once, newest first; equal timestamps come in no promised order. */
    method GetImages() returns (r: seq<ImageRecord>)
      ensures IsListing(r, rows)
      ensures rows == [] ==> r == []
    {
      r := SortByTimestamp(rows);
      assert |r| == |multiset(r)| == |multiset(rows)| == |rows|;
    }

    /**
     * The `updateImageName(id, name)` the full-screen view calls and the
     * store lacks: renames the row with that id, if any; never fails.
     */
    method UpdateImageName(id: int, name: string)
      requires Valid()
      modifies this
      ensures Valid()
      ensures rows == Renamed(old(rows), id, name)
      ensures lastId == old(lastId) && issued == old(issued)
    {
      RenamedKeepsIds(rows, id, name, issued);
      rows := Renamed(rows, id, name);
    }

    /** `deleteImage(id)`: removes the row with that id, if any; never fails. */
    method DeleteImage(id: int)
      requires Valid()
      modifies this
      ensures Valid()
      ensures rows == WithoutId(old(rows), id)
      ensures lastId == old(lastId) && issued == old(issued)
    {
      WithoutIdKeepsOrder(rows, id);
      var kept := WithoutId(rows, id);
      assert forall r :: r in kept ==> r in rows;
      rows := kept;
    }
  }
}
