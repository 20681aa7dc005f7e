/**
 The metadata tables of one bucket.  `Tables` is what callers see: one record per
 object, its manifest included.  `BucketDB` keeps the objects and their chunks in
 separate tables, as SQLite does, and joins them again when an object is read.
 */
module BucketTables {
  import opened Wrappers

  datatype Chunk = Chunk(part: int, path: string, size: nat, md5: string)

  /** An object with an empty manifest is one blob; otherwise its chunks in order. */
  datatype Object = Object(hashPath: string, size: nat, etag: string, contentType: string, chunks: seq<Chunk>)

  datatype Upload = Upload(key: string, contentType: string)

  datatype Part = Part(path: string, size: nat, etag: string)

  datatype Tables = Tables(
    objects: map<string, Object>,
    uploads: map<string, Upload>,
    parts: map<(string, int), Part>)
  {
    function WithObject(key: string, obj: Object): Tables {
      this.(objects := objects[key := obj])
    }

    function WithoutObject(key: string): Tables {
      this.(objects := objects - {key})
    }

    function WithUpload(id: string, up: Upload): Tables {
      this.(uploads := uploads[id := up])
    }

    function WithPart(id: string, n: int, part: Part): Tables {
      this.(parts := parts[(id, n) := part])
    }

    /** Forgets an upload and its part records; the part files are not concerned. */
    function WithoutUpload(id: string): Tables {
      this.(uploads := uploads - {id}, parts := parts - PartKeys(id))
    }

    function PartKeys(id: string): set<(string, int)> {
      set q | q in parts && q.0 == id
    }

    /** The keys of the objects stored in one blob. */
    function StoredIn(p: string): set<string> {
      set k | k in objects && objects[k].hashPath == p
    }

    function PartNumbers(id: string): set<int> {
      set q | q in parts && q.0 == id :: q.1
    }
  }

  const EMPTY_TABLES := Tables(map[], map[], map[])

  /** Manifests are written in part order; two entries may still carry one number. */
  predicate PartOrdered(cs: seq<Chunk>) {
    forall i, j :: 0 <= i < j < |cs| ==> cs[i].part <= cs[j].part
  }

  predicate DistinctParts(cs: seq<Chunk>) {
    forall i, j :: 0 <= i < j < |cs| ==> cs[i].part != cs[j].part
  }
}

/** Finite sets of integers, listed in ascending order. */
module Ascending {

  predicate Strict(s: seq<int>) {
    forall i, j :: 0 <= i < j < |s| ==> s[i] < s[j]
  }

  lemma {:induction false} HasMinimum(s: set<int>)
    ensures s == {} || exists m :: m in s && forall x :: x in s ==> m <= x
  {
    if forall x :: x !in s {
      assert s == {};
    } else {
      var x :| x in s;
      var rest := s - {x};
      assert forall y :: y in s ==> y == x || y in rest;
      HasMinimum(rest);
      if rest == {} {
        assert forall y :: y in s ==> x <= y;
      } else {
        var m :| m in rest && forall y :: y in rest ==> m <= y;
        var k := if x < m then x else m;
        assert k in s;
        assert forall y :: y in s ==> k <= y;
      }
    }
  }

  /** ORDER BY an integer column. */
  function List(s: set<int>): (r: seq<int>)
    ensures Strict(r)
    ensures forall x :: x in r <==> x in s
  {
    if s == {} then []
    else
      HasMinimum(s);
      var m :| m in s && forall x :: x in s ==> m <= x;
      [m] + List(s - {m})
  }

  /** A strictly ascending sequence is determined by its elements. */
  lemma {:induction false} Unique(a: seq<int>, b: seq<int>)
    requires Strict(a) && Strict(b)
    requires forall x :: x in a <==> x in b
    ensures a == b
  {
    assert a != [] ==> a[0] in a;
    assert b != [] ==> b[0] in b;
    if a != [] && b != [] {
      forall x ensures x in a[1..] <==> x in b[1..] {
        assert x in a[1..] <==> x in a && x != a[0];
        assert x in b[1..] <==> x in b && x != b[0];
      }
      Unique(a[1..], b[1..]);
    }
  }
}

module BucketDb {
  import opened BucketTables
  import opened Wrappers
  import Ascending

  datatype ObjectRow = ObjectRow(hashPath: string, size: nat, etag: string, contentType: string)

  datatype ChunkRow = ChunkRow(path: string, size: nat, md5: string)

  type ChunkTable = map<(string, int), ChunkRow>

  function RowsOf(table: ChunkTable, key: string): set<int> {
    set q | q in table && q.0 == key :: q.1
  }

  /** SELECT ... WHERE object_key = key ORDER BY part_number */
  function LoadChunks(table: ChunkTable, key: string): (cs: seq<Chunk>)
    ensures |cs| == |Ascending.List(RowsOf(table, key))|
  {
    var ns := Ascending.List(RowsOf(table, key));
    seq(|ns|, i requires 0 <= i < |ns| =>
      assert ns[i] in RowsOf(table, key);
      var r := table[(key, ns[i])]; Chunk(ns[i], r.path, r.size, r.md5))
  }

  function Joined(objects: map<string, ObjectRow>, table: ChunkTable): map<string, Object> {
    map k | k in objects ::
      Object(objects[k].hashPath, objects[k].size, objects[k].etag, objects[k].contentType, LoadChunks(table, k))
  }

  /** DELETE FROM object_chunks WHERE object_key = key */
  function WithoutRows(table: ChunkTable, key: string): ChunkTable {
    map q | q in table && q.0 != key :: table[q]
  }

  ghost predicate HoldsManifest(table: ChunkTable, key: string, cs: seq<Chunk>) {
    && (forall i :: 0 <= i < |cs| ==> (key, cs[i].part) in table)
    && (forall i :: 0 <= i < |cs| ==>
      table[(key, cs[i].part)] == Row(cs[i]))
    && (forall q :: q in table && q.0 == key ==> exists i :: 0 <= i < |cs| && cs[i].part == q.1)
  }

  /** A manifest written in part order is read back unchanged. */
  lemma ManifestReadBack(table: ChunkTable, key: string, cs: seq<Chunk>)
    requires PartOrdered(cs) && DistinctParts(cs) && HoldsManifest(table, key, cs)
    ensures LoadChunks(table, key) == cs
  {
    var ns := seq(|cs|, i requires 0 <= i < |cs| => cs[i].part);
    var rows := RowsOf(table, key);
    forall x ensures x in ns <==> x in rows {
      if x in ns {
        var i :| 0 <= i < |ns| && ns[i] == x;
        assert (key, cs[i].part) in table;
      }
      if x in rows {
        assert (key, x) in table;
        var i :| 0 <= i < |cs| && cs[i].part == x;
        assert ns[i] == x;
      }
    }
    Ascending.Unique(ns, Ascending.List(rows));
  }

  lemma LoadDependsOnRows(t1: ChunkTable, t2: ChunkTable, key: string)
    requires forall q: (string, int) :: q.0 == key ==> (q in t1 <==> q in t2) && (q in t1 ==> t1[q] == t2[q])
    ensures LoadChunks(t1, key) == LoadChunks(t2, key)
  {
    assert RowsOf(t1, key) == RowsOf(t2, key) by {
      forall x ensures x in RowsOf(t1, key) <==> x in RowsOf(t2, key) {
        assert x in RowsOf(t1, key) <==> (key, x) in t1;
        assert x in RowsOf(t2, key) <==> (key, x) in t2;
      }
    }
    var ns := Ascending.List(RowsOf(t1, key));
    forall i | 0 <= i < |ns| ensures LoadChunks(t1, key)[i] == LoadChunks(t2, key)[i] {
      assert ns[i] in RowsOf(t1, key);
      assert (key, ns[i]) in t1 && (key, ns[i]).0 == key;
    }
  }

  lemma JoinedAfterReplace(objects: map<string, ObjectRow>, t: ChunkTable, t': ChunkTable, key: string, obj: Object)
    requires PartOrdered(obj.chunks) && DistinctParts(obj.chunks)
    requires HoldsManifest(t', key, obj.chunks)
    requires WithoutRows(t', key) == WithoutRows(t, key)
    ensures Joined(objects[key := ObjectRow(obj.hashPath, obj.size, obj.etag, obj.contentType)], t')
         == Joined(objects, t)[key := obj]
  {
    ManifestReadBack(t', key, obj.chunks);
    forall k | k != key ensures LoadChunks(t', k) == LoadChunks(t, k) {
      OtherRows(t, t', key, k);
    }
  }

  lemma OtherRows(t: ChunkTable, t': ChunkTable, key: string, k: string)
    requires WithoutRows(t', key) == WithoutRows(t, key) && k != key
    ensures LoadChunks(t', k) == LoadChunks(t, k)
  {
    forall q: (string, int) | q.0 == k
      ensures (q in t <==> q in t') && (q in t ==> t[q] == t'[q])
    {
      assert q in t <==> q in WithoutRows(t, key);
      assert q in t' <==> q in WithoutRows(t', key);
    }
    LoadDependsOnRows(t', t, k);
  }

  function Row(c: Chunk): ChunkRow {
    ChunkRow(c.path, c.size, c.md5)
  }

  lemma InsertStep(out: ChunkTable, key: string, done: seq<Chunk>, c: Chunk)
    requires HoldsManifest(out, key, done) && (key, c.part) !in out
    ensures HoldsManifest(out[(key, c.part) := Row(c)], key, done + [c])
  {
    var all := done + [c];
    assert all[|done|] == c && forall j :: 0 <= j < |done| ==> all[j] == done[j];
    forall q | q in out && q.0 == key
      ensures exists j :: 0 <= j < |all| && all[j].part == q.1
    {
      var j :| 0 <= j < |done| && done[j].part == q.1;
      assert all[j].part == q.1;
    }
  }

  lemma DistinctStep(out: ChunkTable, key: string, done: seq<Chunk>, c: Chunk)
    requires HoldsManifest(out, key, done) && DistinctParts(done)
    ensures DistinctParts(done + [c]) <==> (key, c.part) !in out
  {
    var all := done + [c];
    assert all[|done|] == c && forall j :: 0 <= j < |done| ==> all[j] == done[j];
    if (key, c.part) in out {
      var j :| 0 <= j < |done| && done[j].part == c.part;
      assert all[j].part == all[|done|].part;
    }
  }

  lemma NotDistinct(cs: seq<Chunk>, i: nat)
    requires i <= |cs| && !DistinctParts(cs[..i])
    ensures !DistinctParts(cs)
  {
    var j, k :| 0 <= j < k < i && cs[..i][j].part == cs[..i][k].part;
    assert cs[j].part == cs[k].part;
  }

  lemma JoinedAfterDelete(objects: map<string, ObjectRow>, t: ChunkTable, key: string)
    ensures Joined(objects - {key}, WithoutRows(t, key)) == Joined(objects, t) - {key}
  {
    forall k | k != key ensures LoadChunks(WithoutRows(t, key), k) == LoadChunks(t, k) {
      LoadDependsOnRows(WithoutRows(t, key), t, k);
    }
  }

  class BucketDB {
    var objects: map<string, ObjectRow>
    var objectChunks: ChunkTable
    var uploads: map<string, Upload>
    var parts: map<(string, int), Part>

    function Tables(): Tables
      reads this
    {
      BucketTables.Tables(Joined(objects, objectChunks), uploads, parts)
    }

    constructor ()
      ensures Tables() == EMPTY_TABLES
    {
      objects, objectChunks, uploads, parts := map[], map[], map[], map[];
      new;
      assert Joined(objects, objectChunks) == map[];
    }

    /** The manifest inserts of one transaction; fails when two rows share a primary key. */
    method InsertChunks(table: ChunkTable, key: string, cs: seq<Chunk>) returns (ok: bool, out: ChunkTable)
      requires forall q :: q in table ==> q.0 != key
      requires PartOrdered(cs)
      ensures ok <==> DistinctParts(cs)
      ensures ok ==> HoldsManifest(out, key, cs) && WithoutRows(out, key) == table
    {
      out := table;
      for i := 0 to |cs|
        invariant DistinctParts(cs[..i])
        invariant HoldsManifest(out, key, cs[..i])
        invariant WithoutRows(out, key) == table
      {
        var c := cs[i];
        assert cs[..i + 1] == cs[..i] + [c];
        DistinctStep(out, key, cs[..i], c);
        if (key, c.part) in out {
          NotDistinct(cs, i + 1);
          return false, out;
        }
        InsertStep(out, key, cs[..i], c);
        assert WithoutRows(out[(key, c.part) := Row(c)], key) == WithoutRows(out, key);
        out := out[(key, c.part) := Row(c)];
      }
      assert cs[..|cs|] == cs;
      return true, out;
    }

    method PutObject(key: string, obj: Object) returns (ok: bool)
      requires PartOrdered(obj.chunks)
      modifies this
      ensures ok <==> DistinctParts(obj.chunks)
      ensures Tables() == if ok then old(Tables()).WithObject(key, obj) else old(Tables())
    {
      var table;
      ok, table := InsertChunks(WithoutRows(objectChunks, key), key, obj.chunks);
      if ok {
        JoinedAfterReplace(objects, objectChunks, table, key, obj);
        objects := objects[key := ObjectRow(obj.hashPath, obj.size, obj.etag, obj.contentType)];
        objectChunks := table;
      }
    }

    method GetObject(key: string) returns (r: Option<Object>)
      ensures r == if key in Tables().objects then Some(Tables().objects[key]) else None
    {
      if key !in objects { return None; }
      var row := objects[key];
      return Some(Object(row.hashPath, row.size, row.etag, row.contentType, LoadChunks(objectChunks, key)));
    }

    method DeleteObject(key: string) returns (ok: bool)
      modifies this
      ensures ok <==> key in old(Tables()).objects
      ensures Tables() == old(Tables()).WithoutObject(key)
    {
      ok := key in objects;
      if ok {
        JoinedAfterDelete(objects, objectChunks, key);
        objects := objects - {key};
        objectChunks := WithoutRows(objectChunks, key);
      }
      assert !ok ==> old(Tables()).objects - {key} == old(Tables()).objects;
    }

    /** SELECT COUNT(*) FROM objects WHERE hash_path = p. */
    method CountByHashPath(p: string) returns (n: nat)
      ensures n == |Tables().StoredIn(p)|
    {
      n := |set k | k in objects && objects[k].hashPath == p|;
      assert Tables().StoredIn(p) == set k | k in objects && objects[k].hashPath == p;
    }

    method CreateMultipartUpload(id: string, up: Upload)
      requires id !in Tables().uploads
      modifies this
      ensures Tables() == old(Tables()).WithUpload(id, up)
    {
      uploads := uploads[id := up];
    }

    method AddPart(id: string, n: int, part: Part)
      modifies this
      ensures Tables() == old(Tables()).WithPart(id, n, part)
    {
      parts := parts[(id, n) := part];
    }

    method CompleteMultipartUpload(id: string, key: string, obj: Object) returns (ok: bool)
      requires PartOrdered(obj.chunks)
      modifies this
      ensures ok <==> DistinctParts(obj.chunks)
      ensures Tables() ==
        if ok then old(Tables()).WithObject(key, obj).WithoutUpload(id) else old(Tables())
    {
      ok := PutObject(key, obj);
      if ok {
        parts := parts - set q | q in parts && q.0 == id;
        uploads := uploads - {id};
      }
    }

    /** VACUUM INTO: the whole database as one value. */
    method SaveToFile() returns (t: Tables)
      ensures t == Tables()
    {
      return Tables();
    }

    method AbortMultipartUpload(id: string)
      modifies this
      ensures Tables() == old(Tables()).WithoutUpload(id)
    {
      parts := parts - set q | q in parts && q.0 == id;
      uploads := uploads - {id};
    }
  }
}
