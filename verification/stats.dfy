/**
 Usage accounting.  Every daemon appends to its own log, publishes the rows it wrote
 itself, and imports the published rows of the others; an import of a row that is
 already there is ignored.
 */
module Stats {
  import opened Wrappers

  /** A row of usage_delta; `source` is "" for rows the daemon wrote itself. */
  datatype Row = Row(id: nat, loc: string, user: string, bucket: string, bytes: int, count: int,
                     source: string, sourceRow: nat)

  ghost predicate Ascending(rows: seq<Row>) {
    forall i, j :: 0 <= i < j < |rows| ==> rows[i].id < rows[j].id
  }

  /** The table, in id order, and the next AUTOINCREMENT id. */
  datatype Log = Log(rows: seq<Row>, next: nat)
  {
    ghost predicate Valid() {
      Ascending(rows) && forall i :: 0 <= i < |rows| ==> rows[i].id < next
    }

    function Add(loc: string, user: string, bucket: string, bytes: int, count: int): Log {
      Log(rows + [Row(next, loc, user, bucket, bytes, count, "", 0)], next + 1)
    }

    predicate Has(source: string, sourceRow: nat) {
      exists i :: 0 <= i < |rows| && rows[i].source == source && rows[i].sourceRow == sourceRow
    }

    /** INSERT OR IGNORE under the unique index on (source_file, source_row_id). */
    function Import(source: string, locs: map<string, string>, r: Row): Log {
      if source != "" && Has(source, r.id) then this
      else Log(rows + [Row(next, Mapped(locs, r.loc), r.user, r.bucket, r.bytes, r.count, source, r.id)], next + 1)
    }

    function Merge(source: string, locs: map<string, string>, snapshot: seq<Row>): Log {
      if snapshot == [] then this
      else Merge(source, locs, snapshot[..|snapshot| - 1]).Import(source, locs, snapshot[|snapshot| - 1])
    }
  }

  function Mapped(locs: map<string, string>, loc: string): string {
    if loc in locs then locs[loc] else loc
  }

  /** The rows of one source, in order. */
  function From(rows: seq<Row>, source: string): seq<Row> {
    if rows == [] then []
    else From(rows[..|rows| - 1], source) + (if rows[|rows| - 1].source == source then [rows[|rows| - 1]] else [])
  }

  /** SELECT SUM(bytes_delta) ... WHERE webdav_location_id = loc */
  function Total(rows: seq<Row>, loc: string): int {
    if rows == [] then 0
    else Total(rows[..|rows| - 1], loc) + (if rows[|rows| - 1].loc == loc then rows[|rows| - 1].bytes else 0)
  }

  class StatsDB {
    var log: Log

    constructor ()
      ensures log == Log([], 1)
    {
      log := Log([], 1);
    }

    method AddDelta(loc: string, user: string, bucket: string, bytes: int, count: int)
      modifies this
      ensures log == old(log).Add(loc, user, bucket, bytes, count)
    {
      log := log.(rows := log.rows + [Row(log.next, loc, user, bucket, bytes, count, "", 0)], next := log.next + 1);
    }

    method GetTotalUsage(loc: string) returns (total: int)
      ensures total == Total(log.rows, loc)
    {
      total := 0;
      for i := 0 to |log.rows|
        invariant total == Total(log.rows[..i], loc)
      {
        assert log.rows[..i + 1][..i] == log.rows[..i];
        if log.rows[i].loc == loc { total := total + log.rows[i].bytes; }
      }
      assert log.rows[..|log.rows|] == log.rows;
    }

    /** One transaction over the rows of a downloaded log. */
    method MergeFromFile(snapshot: seq<Row>, source: string, locs: map<string, string>)
      modifies this
      ensures log == old(log).Merge(source, locs, snapshot)
    {
      for i := 0 to |snapshot|
        invariant log == old(log).Merge(source, locs, snapshot[..i])
      {
        assert snapshot[..i + 1][..i] == snapshot[..i];
        var r := snapshot[i];
        if source == "" || !log.Has(source, r.id) {
          var loc := if r.loc in locs then locs[r.loc] else r.loc;
          log := Log(log.rows + [Row(log.next, loc, r.user, r.bucket, r.bytes, r.count, source, r.id)], log.next + 1);
        }
      }
      assert snapshot[..|snapshot|] == snapshot;
    }

    /** The file uploaded by a flush: a copy of the log with every imported row pruned. */
    method Export() returns (snapshot: seq<Row>)
      ensures snapshot == From(log.rows, "")
    {
      snapshot := [];
      for i := 0 to |log.rows|
        invariant snapshot == From(log.rows[..i], "")
      {
        assert log.rows[..i + 1][..i] == log.rows[..i];
        if log.rows[i].source == "" { snapshot := snapshot + [log.rows[i]]; }
      }
      assert log.rows[..|log.rows|] == log.rows;
    }
  }

  // ------------------------------------------------------------ one log

  lemma {:induction false} FromWithin(rows: seq<Row>, source: string)
    ensures forall r :: r in From(rows, source) ==> r in rows && r.source == source
  {
    if rows != [] {
      var n := |rows| - 1;
      FromWithin(rows[..n], source);
      assert rows == rows[..n] + [rows[n]];
    }
  }

  /** The rows of one source keep the order of the log. */
  lemma {:induction false} FromAscending(rows: seq<Row>, source: string)
    requires Ascending(rows)
    ensures Ascending(From(rows, source))
  {
    if rows != [] {
      var n := |rows| - 1;
      var g := From(rows[..n], source);
      FromAscending(rows[..n], source);
      FromWithin(rows[..n], source);
      forall i | 0 <= i < |g| ensures g[i].id < rows[n].id {
        assert g[i] in rows[..n];
      }
    }
  }

  lemma {:induction false} FromHolds(rows: seq<Row>, r: Row)
    requires r in rows
    ensures r in From(rows, r.source)
  {
    var n := |rows| - 1;
    if rows[n] != r {
      assert rows == rows[..n] + [rows[n]];
      FromHolds(rows[..n], r);
    }
  }
}
