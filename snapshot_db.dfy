/**
 * The snapshot table of backend/db.js. The JSON file is the in-memory
 * sequence `snapshots`; the SQL text that `query` dispatches on by substring
 * becomes a typed `Query`, one constructor per branch, in the source's order.
 */
module SnapshotDb {
  import opened Common

  datatype Snapshot = Snapshot(
    id: int, name: string, description: string, data: string, createdAt: string, updatedAt: string)

  /** A result row: a whole snapshot, or the four columns of the listing. */
  datatype Row =
    | Full(snapshot: Snapshot)
    | Summary(id: int, name: string, description: string, createdAt: string)

  datatype Query =
    | CreateTable                                                  // contains 'CREATE TABLE'
    | InsertSnapshot(name: string, description: string, data: string)  // 'INSERT INTO snapshots'
    | SelectById(id: Option<int>)                                  // 'SELECT * FROM snapshots WHERE id'
    | SelectSummaries                                              // 'SELECT id, name, description, created_at FROM snapshots'
    | Unrecognised

  ghost predicate UniqueIds(table: seq<Snapshot>)
  {
    forall i, j :: 0 <= i < j < |table| ==> table[i].id != table[j].id
  }

  function MaxId(table: seq<Snapshot>): (r: int)
    requires |table| > 0
    ensures forall i :: 0 <= i < |table| ==> table[i].id <= r
    ensures exists i :: 0 <= i < |table| && table[i].id == r
  {
    if |table| == 1 then table[0].id
    else
      var m := MaxId(table[1..]);
      assert forall i :: 1 <= i < |table| ==> table[i] == table[1..][i - 1];
      if table[0].id > m then table[0].id else m
  }

  /** The id an insert allocates: 1 for an empty table, otherwise one past the largest. */
  function NextId(table: seq<Snapshot>): (r: int)
    ensures forall i :: 0 <= i < |table| ==> table[i].id < r
    ensures table == [] ==> r == 1
    ensures table != [] ==> exists i :: 0 <= i < |table| && table[i].id == r - 1
  {
    if |table| > 0 then MaxId(table) + 1 else 1
  }

  /** The appended snapshot; the two timestamps come from two separate clock reads. */
  function NewSnapshot(table: seq<Snapshot>, name: string, description: string, data: string,
                       created: string, updated: string): Snapshot
  {
    Snapshot(NextId(table), name, description, data, created, updated)
  }

  /** `snapshots.find(s => s.id === parseInt(id))`. */
  function FindById(table: seq<Snapshot>, id: Option<int>): (r: Option<Snapshot>)
    ensures r.None? <==> forall i :: 0 <= i < |table| ==> id != Some(table[i].id)
    ensures r.Some? ==> exists i :: 0 <= i < |table| && table[i] == r.value && id == Some(r.value.id)
                                      && forall j :: 0 <= j < i ==> id != Some(table[j].id)
  {
    Find(table, (s: Snapshot) => id == Some(s.id))
  }

  /** The listing: one summary per snapshot, in table order (no sort by creation time). */
  function Summaries(table: seq<Snapshot>): (r: seq<Row>)
    ensures |r| == |table|
    ensures forall i :: 0 <= i < |table| ==>
      r[i] == Summary(table[i].id, table[i].name, table[i].description, table[i].createdAt)
  {
    seq(|table|, i requires 0 <= i < |table| =>
      Summary(table[i].id, table[i].name, table[i].description, table[i].createdAt))
  }

  /** The allocated id is fresh: appending keeps unique ids unique, and the new id looks up to the new snapshot. */
  lemma InsertThenSelect(table: seq<Snapshot>, name: string, description: string, data: string,
                         created: string, updated: string)
    ensures UniqueIds(table) ==> UniqueIds(table + [NewSnapshot(table, name, description, data, created, updated)])
    ensures FindById(table + [NewSnapshot(table, name, description, data, created, updated)], Some(NextId(table)))
            == Some(NewSnapshot(table, name, description, data, created, updated))
  {
    var s := NewSnapshot(table, name, description, data, created, updated);
    var t := table + [s];
    var f := FindById(t, Some(s.id));
    assert t[|table|] == s;
    if f.Some? {
      var i :| 0 <= i < |t| && t[i] == f.value && Some(s.id) == Some(f.value.id);
      assert i == |table|;
    }
  }

  /** The file-backed store, its contents held in memory. */
  class FileDB {
    var snapshots: seq<Snapshot>

    /** The stored file's contents; a missing file starts as `[]`. */
    constructor (stored: seq<Snapshot>)
      ensures snapshots == stored
    {
      snapshots := stored;
    }

    /** `query(sql, params)`; `created` and `updated` stand for the two `new Date().toISOString()` calls. */
    method Query(q: Query, created: string, updated: string) returns (rows: seq<Row>)
      modifies this
      ensures q.InsertSnapshot? ==>
        && snapshots == old(snapshots) + [NewSnapshot(old(snapshots), q.name, q.description, q.data, created, updated)]
        && rows == [Full(NewSnapshot(old(snapshots), q.name, q.description, q.data, created, updated))]
      ensures !q.InsertSnapshot? ==> snapshots == old(snapshots)
      ensures q.SelectById? ==>
        rows == match FindById(old(snapshots), q.id) case Some(s) => [Full(s)] case None => []
      ensures q.SelectSummaries? ==> rows == Summaries(old(snapshots))
      ensures q.CreateTable? || q.Unrecognised? ==> rows == []
      ensures UniqueIds(old(snapshots)) ==> UniqueIds(snapshots)
    {
      match q {
        case CreateTable =>
          rows := [];
        case InsertSnapshot(name, description, data) =>
          var table := snapshots;
          var nextId := if |table| > 0 then MaxId(table) + 1 else 1;
          var newSnapshot := Snapshot(nextId, name, description, data, created, updated);
          table := table + [newSnapshot];
          snapshots := table;
          InsertThenSelect(old(snapshots), name, description, data, created, updated);
          rows := [Full(newSnapshot)];
        case SelectById(id) =>
          var found := FindById(snapshots, id);
          rows := if found.Some? then [Full(found.value)] else [];
        case SelectSummaries =>
          rows := Summaries(snapshots);
        case Unrecognised =>
          rows := [];
      }
    }
  }
}
