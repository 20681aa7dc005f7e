/** Mark and sweep over the blobs and part directories of a location. */
module GarbageCollect {
  import opened GoStrings
  import opened Collections
  import opened Wrappers
  import opened Layout
  import opened BucketTables
  import opened StoreModel
  import opened StoreSteps
  import opened CrashModel
  import opened StoreCore
  import opened Multipart
  import opened ObjectStore

  // ------------------------------------------------------------ marking

  /** The blobs a bucket's objects are stored in. */
  function BlobRefs(t: Tables): set<string> {
    set k | k in t.objects && t.objects[k].hashPath != "" :: t.objects[k].hashPath
  }

  function ChunkUploads(base: string, o: Object): set<string> {
    set i | 0 <= i < |o.chunks| && UploadOf(base, o.chunks[i].path).Some? :: UploadOf(base, o.chunks[i].path).value
  }

  /** The uploads a bucket still needs the parts of: live ones, and those its manifests name. */
  function UploadRefs(base: string, t: Tables): set<string> {
    t.uploads.Keys +
    set k, u | k in t.objects && t.objects[k].hashPath == "" && u in ChunkUploads(base, t.objects[k]) :: u
  }

  ghost predicate UploadReferenced(base: string, w: World, u: string) {
    exists b :: b in w.dbs && u in UploadRefs(base, w.dbs[b])
  }

  ghost predicate BlobReferenced(w: World, p: string) {
    exists b :: b in w.dbs && p in BlobRefs(w.dbs[b])
  }

  // ------------------------------------------------------------ sweeping

  /** The directory and file name the sweep sees for a path two levels below `_data/`. */
  function DataSlot(base: string, p: string): Option<(string, string)> {
    if !(DataDir(base) <= p) then None
    else
      var rel := p[|DataDir(base)|..];
      var i := Index(rel, "/");
      if i < 0 || rel[..i] == ".tmp" then None else Some((rel[..i], FirstComponent(rel[i + 1..])))
  }

  function SlotPath(base: string, slot: (string, string)): string {
    DataDir(base) + slot.0 + "/" + slot.1
  }

  function PartsSlot(base: string, p: string): Option<string> {
    if PartsDir(base) <= p then Some(FirstComponent(p[|PartsDir(base)|..])) else None
  }

  /** What the sweep deletes to be rid of this path, if it deletes anything. */
  function Target(base: string, blobs: set<string>, uploads: set<string>, p: string): Option<string> {
    if DataSlot(base, p).Some? then
      var x := SlotPath(base, DataSlot(base, p).value);
      if x in blobs then None else Some(x)
    else if PartsSlot(base, p).Some? then
      var u := PartsSlot(base, p).value;
      if u in uploads then None else Some(PartsDir(base) + u)
    else None
  }

  /** The files left once these targets are deleted. */
  function Swept(files: map<string, Bytes>, base: string, blobs: set<string>, uploads: set<string>,
                 gone: set<string>): map<string, Bytes> {
    map p | p in files && !(Target(base, blobs, uploads, p).Some? && Target(base, blobs, uploads, p).value in gone)
      :: files[p]
  }

  lemma FirstComponentPlain(rel: string)
    ensures '/' !in FirstComponent(rel)
  {
    var f := FirstComponent(rel);
    if i :| 0 <= i < |f| && f[i] == '/' {
      assert rel[i..i + 1] == "/";
      assert OccursAt(rel, "/", i);
    }
  }

  /** A name is the first component exactly of itself and of what lies below it. */
  lemma FirstComponentIff(name: string, rel: string)
    requires '/' !in name
    ensures FirstComponent(rel) == name <==> rel == name || name + "/" <= rel
  {
    var i := Index(rel, "/");
    if i >= 0 {
      assert OccursAt(rel, "/", i);
      assert rel[..i + 1] == rel[..i] + "/";
      assert rel[i..i + 1][0] == rel[i] && '/' in rel;
    }
    if name + "/" <= rel {
      IndexOfFirst(name, '/', rel[|name| + 1..]);
      assert rel == name + ['/'] + rel[|name| + 1..];
      assert rel[..|name|] == name;
    }
  }

  /** Deleting a blob path removes exactly the paths that lead the sweep to it. */
  lemma UnderSlot(base: string, dir: string, name: string, p: string)
    requires '/' !in dir && '/' !in name && dir != ".tmp"
    ensures Under(SlotPath(base, (dir, name)), p) <==> DataSlot(base, p) == Some((dir, name))
  {
    hide Index, FirstComponent;
    var d := DataDir(base);
    var x := SlotPath(base, (dir, name));
    assert x == d + (dir + "/" + name);
    if d <= p {
      var rel := p[|d|..];
      assert p == d + rel;
      TailUnder(d, dir + "/" + name, rel);
      RelSlot(dir, name, rel);
    }
  }

  lemma RelSlot(dir: string, name: string, rel: string)
    requires '/' !in dir && '/' !in name
    ensures rel == dir + "/" + name || dir + "/" + name + "/" <= rel
      <==> Index(rel, "/") == |dir| && rel[..|dir|] == dir && FirstComponent(rel[|dir| + 1..]) == name
  {
    var t := dir + "/";
    FirstComponentIff(dir, rel);
    if t <= rel {
      var rest := rel[|t|..];
      assert rel == t + rest && rel == dir + ['/'] + rest;
      IndexOfFirst(dir, '/', rest);
      FirstComponentIff(name, rest);
      TailUnder(t, name, rest);
    } else {
      assert dir + "/" + name == t + name;
      assert t <= t + name && t <= t + name + "/";
    }
  }

  lemma TailUnder(head: string, name: string, tail: string)
    ensures Under(head + name, head + tail) <==> tail == name || name + "/" <= tail
  {
    var p := head + tail;
    assert p[|head|..] == tail && (head + name)[|head|..] == name;
    if Under(head + name, p) && p != head + name {
      assert (head + name + "/") == head + (name + "/");
      PrefixTail(head, name + "/", p);
    }
    if name + "/" <= tail {
      assert head + name + "/" == head + (name + "/");
      assert p[..|head + name + "/"|] == head + tail[..|name| + 1];
    }
  }

  lemma PrefixTail(head: string, tail: string, p: string)
    requires head <= p
    ensures head + tail <= p <==> tail <= p[|head|..]
  {
    assert p == head + p[|head|..];
    if head + tail <= p {
      assert p[..|head + tail|] == head + tail;
      assert p[|head|..][..|tail|] == tail;
    }
    if tail <= p[|head|..] {
      assert p[..|head + tail|] == head + tail;
    }
  }

  lemma UnderPartsSlot(base: string, u: string, p: string)
    requires '/' !in u
    ensures Under(PartsDir(base) + u, p) <==> PartsSlot(base, p) == Some(u)
  {
    var d := PartsDir(base);
    if d <= p {
      var rel := p[|d|..];
      assert p == d + rel;
      FirstComponentIff(u, rel);
      TailUnder(d, u, rel);
    }
  }

  /** A blob path and a parts directory are never the same target. */
  lemma SlotsApart(base: string, p: string)
    ensures DataSlot(base, p).Some? ==> PartsSlot(base, p).None?
  {
    if DataDir(base) <= p { DataAndPartsDisjoint(base, p); }
  }

  lemma DataTarget(base: string, blobs: set<string>, uploads: set<string>, dir: string, name: string, p: string)
    requires '/' !in dir && '/' !in name && dir != ".tmp" && SlotPath(base, (dir, name)) !in blobs
    ensures var x := SlotPath(base, (dir, name)); Under(x, p) <==> Target(base, blobs, uploads, p) == Some(x)
  {
    var x := SlotPath(base, (dir, name));
    UnderSlot(base, dir, name, p);
    assert x == DataDir(base) + (dir + "/" + name);
    DataAndPartsDisjoint(base, x);
    if DataSlot(base, p).Some? && SlotPath(base, DataSlot(base, p).value) == x {
      SlotPlain(base, p);
      SlotPathInjective(base, DataSlot(base, p).value, (dir, name));
    }
  }

  lemma SlotPlain(base: string, p: string)
    requires DataSlot(base, p).Some?
    ensures var s := DataSlot(base, p).value; '/' !in s.0 && '/' !in s.1 && s.0 != ".tmp"
  {
    var rel := p[|DataDir(base)|..];
    FirstComponentPlain(rel);
    FirstComponentPlain(rel[Index(rel, "/") + 1..]);
  }

  lemma SlotPathInjective(base: string, s: (string, string), t: (string, string))
    requires '/' !in s.0 && '/' !in t.0 && SlotPath(base, s) == SlotPath(base, t)
    ensures s == t
  {
    var d := DataDir(base);
    var rs, rt := s.0 + ['/'] + s.1, t.0 + ['/'] + t.1;
    assert SlotPath(base, s) == d + rs && SlotPath(base, t) == d + rt;
    assert (d + rs)[|d|..] == rs && (d + rt)[|d|..] == rt;
    IndexOfFirst(s.0, '/', s.1);
    IndexOfFirst(t.0, '/', t.1);
    assert rs[..|s.0|] == s.0 && rt[..|t.0|] == t.0;
    assert rs[|s.0| + 1..] == s.1 && rt[|t.0| + 1..] == t.1;
  }

  lemma PartsTarget(base: string, blobs: set<string>, uploads: set<string>, u: string, p: string)
    requires '/' !in u && u !in uploads
    ensures Under(PartsDir(base) + u, p) <==> Target(base, blobs, uploads, p) == Some(PartsDir(base) + u)
  {
    UnderPartsSlot(base, u, p);
    SlotsApart(base, p);
    var x := PartsDir(base) + u;
    assert x[|PartsDir(base)|..] == u;
    if DataSlot(base, p).Some? {
      var y := SlotPath(base, DataSlot(base, p).value);
      assert y == DataDir(base) + (DataSlot(base, p).value.0 + "/" + DataSlot(base, p).value.1);
      DataAndPartsDisjoint(base, y);
    } else if PartsSlot(base, p).Some? {
      var v := PartsSlot(base, p).value;
      assert (PartsDir(base) + v)[|PartsDir(base)|..] == v;
    }
  }

  /** One deletion is one more target gone. */
  lemma SweepStep(files: map<string, Bytes>, base: string, blobs: set<string>, uploads: set<string>,
                  gone: set<string>, x: string)
    requires forall p :: Under(x, p) <==> Target(base, blobs, uploads, p) == Some(x)
    ensures RemoveTree(Swept(files, base, blobs, uploads, gone), x) == Swept(files, base, blobs, uploads, gone + {x})
  {
  }

  /** No path has an empty name right below `_data/`, as on any WebDAV server. */
  ghost predicate CleanPaths(base: string, files: map<string, Bytes>) {
    forall p :: p in files && DataDir(base) <= p ==> FirstComponent(p[|DataDir(base)|..]) != ""
  }

  /** A path with a data target is listed under its directory, and its directory under `_data/`. */
  lemma ListedData(files: map<string, Bytes>, base: string, p: string)
    requires p in files && DataSlot(base, p).Some? && CleanPaths(base, files)
    ensures var s := DataSlot(base, p).value;
      s.0 in Children(files, DataDir(base)) && s.1 in Children(files, DataDir(base) + s.0)
  {
    var d := DataDir(base);
    var rel := p[|d|..];
    var i := Index(rel, "/");
    var dir := rel[..i];
    assert AsDir(d) == d && FirstComponent(rel) == dir && dir != "";
    assert OccursAt(rel, "/", i) && rel == dir + "/" + rel[i + 1..];
    assert p == d + dir + "/" + rel[i + 1..];
    SlotPlain(base, p);
    DirOfName(d, dir);
    assert p[|d + dir + "/"|..] == rel[i + 1..];
    assert d + dir + "/" <= p;
  }

  lemma DirOfName(d: string, dir: string)
    requires dir != "" && '/' !in dir
    ensures AsDir(d + dir) == d + dir + "/"
  {
    assert (d + dir)[|d + dir| - 1] == dir[|dir| - 1];
    assert dir[|dir| - 1] in dir;
  }

  lemma ListedParts(files: map<string, Bytes>, base: string, p: string)
    requires p in files && PartsSlot(base, p).Some?
    ensures PartsSlot(base, p).value in Children(files, PartsDir(base))
  {
    assert AsDir(PartsDir(base)) == PartsDir(base);
  }

  // ------------------------------------------------------------ the collector

  /** Exactly what a collection leaves: this is read off the tables, before any call. */
  ghost predicate Kept(c: Config, w: World, p: string) {
    if DataSlot(c.base, p).Some? then BlobReferenced(w, SlotPath(c.base, DataSlot(c.base, p).value))
    else if PartsSlot(c.base, p).Some? then UploadReferenced(c.base, w, PartsSlot(c.base, p).value)
    else true
  }

  ghost predicate Exact(c: Config, w: World, blobs: set<string>, uploads: set<string>) {
    && (forall p :: p in blobs <==> BlobReferenced(w, p))
    && (forall u :: u in uploads <==> UploadReferenced(c.base, w, u))
  }

  /** A blob's slot is the blob itself. */
  lemma BlobSlot(c: Config, data: Bytes)
    requires c.Valid()
    ensures DataSlot(c.base, c.BlobPath(data)).Some?
    ensures SlotPath(c.base, DataSlot(c.base, c.BlobPath(data)).value) == c.BlobPath(data)
  {
    var sha := c.sha(data);
    var dir := sha[..2];
    assert forall i :: 0 <= i < |dir| ==> dir[i] == sha[i] && sha[i] in sha;
    assert c.BlobPath(data) == SlotPath(c.base, (dir, sha));
    UnderSlot(c.base, dir, sha, c.BlobPath(data));
  }

  lemma PartSlot(c: Config, u: string, n: int)
    requires '/' !in u
    ensures DataSlot(c.base, PartPath(c.base, u, n)).None? && PartsSlot(c.base, PartPath(c.base, u, n)) == Some(u)
  {
    var p := PartPath(c.base, u, n);
    assert PartsDir(c.base) + u + "/" <= p;
    UnderPartsSlot(c.base, u, p);
    SlotsApart(c.base, p);
  }

  /** Everything the tables need is kept. */
  lemma NeededIsKept(c: Config, w: World, p: string)
    requires Inv(c, w) && Needed(w, p)
    ensures Kept(c, w, p)
  {
    if b, k :| w.Has(b, k) && Needs(w.Obj(b, k), p) {
      var o := w.Obj(b, k);
      assert WellStored(c, w.files, o);
      if o.chunks == [] {
        BlobSlot(c, w.files[p]);
        assert p in BlobRefs(w.dbs[b]);
      } else {
        var i :| 0 <= i < |o.chunks| && o.chunks[i].path == p;
        var u := Owner(c, o).value;
        PartSlot(c, u, o.chunks[i].part);
        UploadOfPartPath(c.base, u, o.chunks[i].part);
        assert u in ChunkUploads(c.base, o);
        assert k in w.dbs[b].objects && u in UploadRefs(c.base, w.dbs[b]);
      }
    } else {
      var b, u, n :| w.HasPart(b, u, n) && w.PartOf(b, u, n).path == p;
      assert w.Live(b, u) && PartStored(c, w.files, u, n, w.PartOf(b, u, n));
      PartSlot(c, u, n);
      assert u in UploadRefs(c.base, w.dbs[b]);
    }
  }

  /** A blob is kept exactly when some object on the location is stored in it. */
  lemma BlobKeptIff(c: Config, w: World, data: Bytes)
    requires Inv(c, w)
    ensures Kept(c, w, c.BlobPath(data)) <==> Shared(w, c.BlobPath(data))
  {
    var p := c.BlobPath(data);
    BlobSlot(c, data);
    if BlobReferenced(w, p) {
      var b :| b in w.dbs && p in BlobRefs(w.dbs[b]);
      var k :| k in w.dbs[b].objects && w.dbs[b].objects[k].hashPath == p;
      assert w.Has(b, k) && w.Obj(b, k).hashPath == p;
      assert RefersIn(w, b, p);
    }
    if Shared(w, p) {
      var b :| RefersIn(w, b, p);
      assert p in BlobRefs(w.dbs[b]);
    }
  }

  /** A part file is kept exactly when its upload is live or became an object. */
  lemma PartKeptIff(c: Config, w: World, u: string, n: int)
    requires Inv(c, w) && '/' !in u
    ensures Kept(c, w, PartPath(c.base, u, n)) <==>
      (exists b :: w.Live(b, u)) || (exists b, k :: w.Has(b, k) && Owner(c, w.Obj(b, k)) == Some(u))
  {
    PartSlot(c, u, n);
    if UploadReferenced(c.base, w, u) {
      var b :| b in w.dbs && u in UploadRefs(c.base, w.dbs[b]);
      if u in w.dbs[b].uploads {
        assert w.Live(b, u);
      } else {
        var k :| k in w.dbs[b].objects && u in ChunkUploads(c.base, w.dbs[b].objects[k]);
        assert w.Has(b, k) && w.Obj(b, k) == w.dbs[b].objects[k];
        ChunkUploadIsOwner(c, w.files, w.Obj(b, k), u);
      }
    }
    if b :| w.Live(b, u) {
      assert u in UploadRefs(c.base, w.dbs[b]);
    }
    if b, k :| w.Has(b, k) && Owner(c, w.Obj(b, k)) == Some(u) {
      var o := w.Obj(b, k);
      assert WellStored(c, w.files, o);
      assert u in ChunkUploads(c.base, o);
      assert k in w.dbs[b].objects && u in UploadRefs(c.base, w.dbs[b]);
    }
  }

  lemma ChunkUploadIsOwner(c: Config, files: map<string, Bytes>, o: Object, u: string)
    requires c.Valid() && WellStored(c, files, o) && u in ChunkUploads(c.base, o)
    ensures Owner(c, o) == Some(u)
  {
    var i :| 0 <= i < |o.chunks| && UploadOf(c.base, o.chunks[i].path) == Some(u);
    assert Needs(o, o.chunks[i].path);
    NeedsWithinOwner(c, files, o, o.chunks[i].path);
  }

  /** A collection is safe for the snapshots exactly when it keeps what they refer to. */
  ghost predicate SnapshotsKept(c: Config, w: World) {
    forall b, k, p :: w.RemoteHas(b, k) && Needs(w.RemoteObj(b, k), p) ==> Kept(c, w, p)
  }

  /** What a sweep, however far it got, may have done. */
  ghost predicate SweptSome(c: Config, w: World, files': map<string, Bytes>) {
    && (forall p :: p in files' ==> p in w.files && files'[p] == w.files[p])
    && (forall p :: p in w.files && Kept(c, w, p) ==> p in files')
  }

  lemma SweepHarmless(c: Config, w: World, files': map<string, Bytes>)
    requires Inv(c, w) && SweptSome(c, w, files')
    ensures Inv(c, w.(files := files')) && SameContents(w, w.(files := files'), {})
    ensures Recoverable(c, w) && SnapshotsKept(c, w) ==> Recoverable(c, w.(files := files'))
  {
    forall p | p in w.files && Needed(w, p) ensures p in files' {
      NeededIsKept(c, w, p);
    }
    FilesRemoved(c, w, files');
    if Recoverable(c, w) && SnapshotsKept(c, w) {
      forall b, k, p | b in w.remote && k in w.remote[b].objects && Needs(w.remote[b].objects[k], p)
        ensures AgreeOn(w.files, files', p)
      {
        assert w.RemoteHas(b, k) && w.RemoteObj(b, k) == w.remote[b].objects[k];
      }
      ReadableFrame(c, DiskOf(w), files');
      SameRecords(w, w.(files := files'));
    }
  }

  /** After a complete sweep the snapshots are readable exactly when all they refer to was kept. */
  lemma SweepKeepsReadableIff(c: Config, w: World, files': map<string, Bytes>)
    requires Inv(c, w) && Recoverable(c, w)
    requires forall p :: p in files' <==> p in w.files && Kept(c, w, p)
    requires forall p :: p in files' ==> files'[p] == w.files[p]
    ensures Readable(c, Disk(files', w.remote)) <==> SnapshotsKept(c, w)
  {
    if SnapshotsKept(c, w) {
      SweepHarmless(c, w, files');
      assert DiskOf(w.(files := files')) == Disk(files', w.remote);
    } else {
      var b, k, p :| w.RemoteHas(b, k) && Needs(w.RemoteObj(b, k), p) && !Kept(c, w, p);
      var d := Disk(files', w.remote);
      assert b in d.remote && k in d.remote[b].objects;
    }
  }

  /** Files may go, and new ones be stored, without a directory name getting lost. */
  lemma CleanStays(c: Config, files: map<string, Bytes>, files': map<string, Bytes>)
    requires CleanPaths(c.base, files) && PathsKept(c, files, files')
    ensures CleanPaths(c.base, files')
  {
    forall p | p in files' && p !in files && DataDir(c.base) <= p
      ensures FirstComponent(p[|DataDir(c.base)|..]) != ""
    {
      if x: Bytes :| p == DataPath(c.base, c.sha(x)) {
        var rel := p[|DataDir(c.base)|..];
        assert rel == c.sha(x)[..2] + "/" + c.sha(x);
        IndexOfFirst(c.sha(x)[..2], '/', c.sha(x));
        assert rel == c.sha(x)[..2] + ['/'] + c.sha(x);
      } else {
        var u, n :| '/' !in u && p == PartPath(c.base, u, n);
        DataAndPartsDisjoint(c.base, p);
      }
    }
  }

  lemma SweptIsSome(c: Config, w: World, blobs: set<string>, uploads: set<string>, gone: set<string>)
    requires Exact(c, w, blobs, uploads)
    ensures SweptSome(c, w, Swept(w.files, c.base, blobs, uploads, gone))
  {
    forall p | p in w.files && Kept(c, w, p) ensures p in Swept(w.files, c.base, blobs, uploads, gone) {
    }
  }

  class Collector {
    const core: Core

    constructor (core: Core)
      ensures this.core == core
    {
      this.core := core;
    }

    /** The references of one bucket, object by object and chunk by chunk. */
    method CollectBucket(t: Tables) returns (blobs: set<string>, uploads: set<string>)
      ensures blobs == BlobRefs(t)
      ensures uploads == UploadRefs(core.c.base, t)
    {
      hide ChunkUploads, RefsSoFar;
      blobs, uploads := {}, {};
      var keys := t.objects.Keys;
      RefsStart(core.c.base, t);
      while keys != {}
        invariant keys <= t.objects.Keys && RefsSoFar(core.c.base, t, keys, blobs, uploads)
        decreases |keys|
      {
        var k := Any(keys);
        var o := t.objects[k];
        RefsMore(core.c.base, t, keys, k, blobs, uploads);
        if o.hashPath != "" {
          blobs := blobs + {o.hashPath};
        } else {
          var named := CollectChunks(o);
          uploads := uploads + named;
        }
        keys := keys - {k};
      }
      RefsEnd(core.c.base, t, blobs, uploads);
      uploads := t.uploads.Keys + uploads;
    }

    method CollectChunks(o: Object) returns (uploads: set<string>)
      ensures uploads == ChunkUploads(core.c.base, o)
    {
      uploads := {};
      for i := 0 to |o.chunks|
        invariant uploads ==
          set j | 0 <= j < i && UploadOf(core.c.base, o.chunks[j].path).Some?
            :: UploadOf(core.c.base, o.chunks[j].path).value
      {
        var u := UploadOf(core.c.base, o.chunks[i].path);
        if u.Some? { uploads := uploads + {u.value}; }
      }
    }

    method CollectReferences() returns (blobs: set<string>, uploads: set<string>)
      ensures Exact(core.c, core.World(), blobs, uploads)
    {
      hide Core.World, BlobRefs, UploadRefs, Marked, Exact;
      ghost var w := core.World();
      blobs, uploads := {}, {};
      assert w.dbs.Keys == core.dbs.Keys;
      var left := core.dbs.Keys;
      MarkStart(core.c, w);
      while left != {}
        invariant left <= core.dbs.Keys
        invariant Marked(core.c, w, left, blobs, uploads)
        invariant core.World() == w
        decreases |left|
      {
        var b := Any(left);
        var t := core.TablesOf(b);
        var bs, us := CollectBucket(t);
        MarkMore(core.c, w, left, b, blobs, uploads);
        left := left - {b};
        blobs, uploads := blobs + bs, uploads + us;
      }
      MarkEnd(core.c, w, blobs, uploads);
    }

    /** Between two deletions: these targets are gone, and no others. */
    ghost predicate Sweeping(w: World, blobs: set<string>, uploads: set<string>, gone: set<string>)
      reads core.dav, set b | b in core.dbs :: core.dbs[b]
    {
      && core.Valid()
      && core.World() == w.(files := Swept(w.files, core.c.base, blobs, uploads, gone))
    }

    /** Deletes one target. */
    method Sweep(x: string, ghost w: World, blobs: set<string>, uploads: set<string>, ghost gone: set<string>)
        returns (ok: bool)
      requires Sweeping(w, blobs, uploads, gone) && Inv(core.c, w) && Exact(core.c, w, blobs, uploads)
      requires forall p :: Under(x, p) <==> Target(core.c.base, blobs, uploads, p) == Some(x)
      modifies core.dav
      ensures Sweeping(w, blobs, uploads, if ok then gone + {x} else gone)
      ensures core.dav.faults == old(core.dav.faults) + if ok then 0 else 1
      ensures Recoverable(core.c, w) && SnapshotsKept(core.c, w) && old(core.CrashSafe()) ==> core.CrashSafe()
    {
      hide Core.World, Inv, Recoverable, SameContents, Swept, SnapshotsKept, Exact, Target, SweptSome;
      ok := core.DropTree(x);
      SweepStep(w.files, core.c.base, blobs, uploads, gone, x);
      SweptIsSome(core.c, w, blobs, uploads, gone);
      SweptIsSome(core.c, w, blobs, uploads, gone + {x});
      SweepHarmless(core.c, w, Swept(w.files, core.c.base, blobs, uploads, gone));
      SweepHarmless(core.c, w, Swept(w.files, core.c.base, blobs, uploads, gone + {x}));
    }

    /** The `_data/` pass, directory by directory. */
    method SweepData(blobs: set<string>, uploads: set<string>, ghost w: World)
        returns (count: nat, ghost gone: set<string>)
      requires Sweeping(w, blobs, uploads, {}) && Inv(core.c, w) && Exact(core.c, w, blobs, uploads)
      requires CleanPaths(core.c.base, w.files)
      modifies core.dav
      ensures Sweeping(w, blobs, uploads, gone) && (count == 0 ==> gone == {})
      ensures core.dav.faults >= old(core.dav.faults)
      ensures core.dav.faults == old(core.dav.faults) ==> DataDone(w.files, core.c.base, blobs, uploads, {}, gone)
      ensures Recoverable(core.c, w) && SnapshotsKept(core.c, w) && old(core.CrashSafe()) ==> core.CrashSafe()
    {
      hide Core.World, Inv, Recoverable, SameContents, Swept, SnapshotsKept, Exact, Target, DataDone, Children, DirDone;
      count, gone := 0, {};
      NothingSwept(w, core.c.base, blobs, uploads);
      var listed := core.ReadDir(DataDir(core.c.base));
      if listed.None? { return; }
      var dirs := listed.value;
      DataListed(w.files, core.c.base, blobs, uploads, dirs);
      while dirs != {}
        invariant Sweeping(w, blobs, uploads, gone) && (count == 0 ==> gone == {})
        invariant core.dav.faults >= old(core.dav.faults)
        invariant core.dav.faults == old(core.dav.faults) ==> DataDone(w.files, core.c.base, blobs, uploads, dirs, gone)
        invariant Recoverable(core.c, w) && SnapshotsKept(core.c, w) && old(core.CrashSafe()) ==> core.CrashSafe()
        invariant forall d :: d in dirs ==> '/' !in d && d != ""
        decreases |dirs|
      {
        var dir := Any(dirs);
        if dir != ".tmp" {
          var n;
          ghost var gone' := gone;
          n, gone' := SweepDir(dir, blobs, uploads, w, gone);
          DirsStep(w.files, core.c.base, blobs, uploads, dirs, dir, gone, gone');
          count, gone := count + n, gone';
        } else {
          TmpStep(w.files, core.c.base, blobs, uploads, dirs, gone);
        }
        dirs := dirs - {dir};
      }
    }

    method SweepDir(dir: string, blobs: set<string>, uploads: set<string>, ghost w: World, ghost gone0: set<string>)
        returns (count: nat, ghost gone: set<string>)
      requires Sweeping(w, blobs, uploads, gone0) && Inv(core.c, w) && Exact(core.c, w, blobs, uploads)
      requires CleanPaths(core.c.base, w.files) && '/' !in dir && dir != ".tmp" && dir != ""
      modifies core.dav
      ensures Sweeping(w, blobs, uploads, gone) && gone0 <= gone && (count == 0 ==> gone == gone0)
      ensures core.dav.faults >= old(core.dav.faults)
      ensures core.dav.faults == old(core.dav.faults) ==> DirDone(w.files, core.c.base, blobs, uploads, dir, {}, gone)
      ensures Recoverable(core.c, w) && SnapshotsKept(core.c, w) && old(core.CrashSafe()) ==> core.CrashSafe()
    {
      hide Core.World, Inv, Recoverable, SameContents, Swept, SnapshotsKept, Exact, Target, Children, DirDone;
      count, gone := 0, gone0;
      var dirPath := DataDir(core.c.base) + dir;
      var listed := core.ReadDir(dirPath);
      if listed.None? { return; }
      var names := listed.value;
      DirListed(w.files, core.c.base, blobs, uploads, dir, names, gone);
      while names != {}
        invariant Sweeping(w, blobs, uploads, gone) && gone0 <= gone && (count == 0 ==> gone == gone0)
        invariant core.dav.faults >= old(core.dav.faults)
        invariant core.dav.faults == old(core.dav.faults) ==>
          DirDone(w.files, core.c.base, blobs, uploads, dir, names, gone)
        invariant Recoverable(core.c, w) && SnapshotsKept(core.c, w) && old(core.CrashSafe()) ==> core.CrashSafe()
        invariant forall n :: n in names ==> '/' !in n
        decreases |names|
      {
        var name := Any(names);
        var hashPath := dirPath + "/" + name;
        assert hashPath == SlotPath(core.c.base, (dir, name));
        NameStep(w.files, core.c.base, blobs, uploads, dir, names, name, gone);
        if hashPath !in blobs {
          var ok := Sweep(hashPath, w, blobs, uploads, gone);
          if ok { count, gone := count + 1, gone + {hashPath}; }
        }
        names := names - {name};
      }
    }

    /** The `_parts/` pass: whole upload directories. */
    method SweepParts(blobs: set<string>, uploads: set<string>, ghost w: World, ghost gone0: set<string>)
        returns (count: nat, ghost gone: set<string>)
      requires Sweeping(w, blobs, uploads, gone0) && Inv(core.c, w) && Exact(core.c, w, blobs, uploads)
      modifies core.dav
      ensures Sweeping(w, blobs, uploads, gone) && gone0 <= gone && (count == 0 ==> gone == gone0)
      ensures core.dav.faults >= old(core.dav.faults)
      ensures core.dav.faults == old(core.dav.faults) ==> PartsDone(w.files, core.c.base, blobs, uploads, {}, gone)
      ensures Recoverable(core.c, w) && SnapshotsKept(core.c, w) && old(core.CrashSafe()) ==> core.CrashSafe()
    {
      hide Core.World, Inv, Recoverable, SameContents, Swept, SnapshotsKept, Exact, Target, Children, PartsDone;
      count, gone := 0, gone0;
      var listed := core.ReadDir(PartsDir(core.c.base));
      if listed.None? { return; }
      var dirs := listed.value;
      PartsListed(w.files, core.c.base, blobs, uploads, dirs, gone);
      while dirs != {}
        invariant Sweeping(w, blobs, uploads, gone) && gone0 <= gone && (count == 0 ==> gone == gone0)
        invariant core.dav.faults >= old(core.dav.faults)
        invariant core.dav.faults == old(core.dav.faults) ==>
          PartsDone(w.files, core.c.base, blobs, uploads, dirs, gone)
        invariant Recoverable(core.c, w) && SnapshotsKept(core.c, w) && old(core.CrashSafe()) ==> core.CrashSafe()
        invariant forall d :: d in dirs ==> '/' !in d
        decreases |dirs|
      {
        var dir := Any(dirs);
        var dirPath := PartsDir(core.c.base) + dir;
        PartsStep(w.files, core.c.base, blobs, uploads, dirs, dir, gone);
        if dir !in uploads {
          var ok := Sweep(dirPath, w, blobs, uploads, gone);
          if ok { count, gone := count + 1, gone + {dirPath}; }
        }
        dirs := dirs - {dir};
      }
    }

    /**
     Collects the references of every bucket, then deletes what none of them names,
     counting the deletions that succeed.
     */
    method GarbageCollect() returns (deleted: nat)
      requires core.Valid() && CleanPaths(core.c.base, core.World().files)
      modifies core.dav
      ensures core.Valid() && SameContents(old(core.World()), core.World(), {})
      ensures core.World() == old(core.World()).(files := core.World().files)
      ensures SweptSome(core.c, old(core.World()), core.World().files)
      ensures deleted == 0 ==> core.World() == old(core.World())
      ensures core.dav.faults >= old(core.dav.faults)
      ensures core.dav.faults == old(core.dav.faults) ==>
        forall p :: p in core.World().files <==> p in old(core.World()).files && Kept(core.c, old(core.World()), p)
      ensures old(core.CrashSafe()) && SnapshotsKept(core.c, old(core.World())) ==> core.CrashSafe()
      ensures old(core.CrashSafe()) && core.dav.faults == old(core.dav.faults) ==>
        (Readable(core.c, DiskOf(core.World())) <==> SnapshotsKept(core.c, old(core.World())))
      ensures forall p :: p in core.World().files ==> p in old(core.World()).files
    {
      hide Core.World, Inv, Recoverable, Readable, SameContents, Kept, Swept, SnapshotsKept, Exact;
      hide CleanPaths, Target, SweptSome;
      ghost var w := core.World();
      var blobs, uploads := CollectReferences();
      NothingSwept(w, core.c.base, blobs, uploads);
      var count, gone := SweepData(blobs, uploads, w);
      var count', gone' := SweepParts(blobs, uploads, w, gone);
      SweptIsSome(core.c, w, blobs, uploads, gone');
      SweepHarmless(core.c, w, core.World().files);
      if core.dav.faults == old(core.dav.faults) {
        SweepComplete(core.c, w, blobs, uploads, gone, gone');
        if Recoverable(core.c, w) { SweepKeepsReadableIff(core.c, w, core.World().files); }
      }
      deleted := count + count';
    }
  }

  /** Every data target outside these directories is gone. */
  ghost predicate DataDone(files: map<string, Bytes>, base: string, blobs: set<string>, uploads: set<string>,
                           dirs: set<string>, gone: set<string>)
  {
    forall p :: p in files && DataSlot(base, p).Some? && Target(base, blobs, uploads, p).Some? ==>
      DataSlot(base, p).value.0 in dirs || Target(base, blobs, uploads, p).value in gone
  }

  /** Every data target in this directory is gone, but for these names. */
  ghost predicate DirDone(files: map<string, Bytes>, base: string, blobs: set<string>, uploads: set<string>,
                          dir: string, names: set<string>, gone: set<string>)
  {
    forall p :: p in files && DataSlot(base, p).Some? && Target(base, blobs, uploads, p).Some? ==>
      DataSlot(base, p).value.0 != dir || DataSlot(base, p).value.1 in names
      || Target(base, blobs, uploads, p).value in gone
  }

  ghost predicate PartsDone(files: map<string, Bytes>, base: string, blobs: set<string>, uploads: set<string>,
                            dirs: set<string>, gone: set<string>)
  {
    forall p :: p in files && PartsSlot(base, p).Some? && Target(base, blobs, uploads, p).Some? ==>
      PartsSlot(base, p).value in dirs || Target(base, blobs, uploads, p).value in gone
  }

  lemma ChildrenPlain(files: map<string, Bytes>, dir: string)
    ensures forall n :: n in Children(files, dir) ==> '/' !in n
  {
    forall n | n in Children(files, dir) ensures '/' !in n {
      var p :| p in files && AsDir(dir) <= p && FirstComponent(p[|AsDir(dir)|..]) == n;
      FirstComponentPlain(p[|AsDir(dir)|..]);
    }
  }

  lemma DataListed(files: map<string, Bytes>, base: string, blobs: set<string>, uploads: set<string>, dirs: set<string>)
    requires CleanPaths(base, files) && dirs == Children(files, DataDir(base))
    ensures DataDone(files, base, blobs, uploads, dirs, {})
    ensures forall d :: d in dirs ==> '/' !in d && d != ""
  {
    forall p | p in files && DataSlot(base, p).Some? ensures DataSlot(base, p).value.0 in dirs {
      ListedData(files, base, p);
    }
    ChildrenPlain(files, DataDir(base));
    assert AsDir(DataDir(base)) == DataDir(base);
  }

  lemma DirListed(files: map<string, Bytes>, base: string, blobs: set<string>, uploads: set<string>,
                  dir: string, names: set<string>, gone: set<string>)
    requires CleanPaths(base, files)
    requires names == Children(Swept(files, base, blobs, uploads, gone), DataDir(base) + dir)
    ensures DirDone(files, base, blobs, uploads, dir, names, gone)
    ensures forall n :: n in names ==> '/' !in n
  {
    var now := Swept(files, base, blobs, uploads, gone);
    forall p | p in files && DataSlot(base, p).Some? && DataSlot(base, p).value.0 == dir
      && Target(base, blobs, uploads, p).Some? && Target(base, blobs, uploads, p).value !in gone
      ensures DataSlot(base, p).value.1 in names
    {
      ListedData(now, base, p);
    }
    ChildrenPlain(now, DataDir(base) + dir);
  }

  lemma PartsListed(files: map<string, Bytes>, base: string, blobs: set<string>, uploads: set<string>,
                    dirs: set<string>, gone: set<string>)
    requires dirs == Children(Swept(files, base, blobs, uploads, gone), PartsDir(base))
    ensures PartsDone(files, base, blobs, uploads, dirs, gone)
    ensures forall d :: d in dirs ==> '/' !in d
  {
    var now := Swept(files, base, blobs, uploads, gone);
    forall p | p in files && PartsSlot(base, p).Some?
      && Target(base, blobs, uploads, p).Some? && Target(base, blobs, uploads, p).value !in gone
      ensures PartsSlot(base, p).value in dirs
    {
      ListedParts(now, base, p);
    }
    ChildrenPlain(now, PartsDir(base));
  }

  lemma NameStep(files: map<string, Bytes>, base: string, blobs: set<string>, uploads: set<string>,
                 dir: string, names: set<string>, name: string, gone: set<string>)
    requires '/' !in dir && '/' !in name && dir != ".tmp" && name in names
    ensures var x := SlotPath(base, (dir, name));
      && (x !in blobs ==> forall p :: Under(x, p) <==> Target(base, blobs, uploads, p) == Some(x))
      && (DirDone(files, base, blobs, uploads, dir, names, gone) && (x in blobs || x in gone) ==>
        DirDone(files, base, blobs, uploads, dir, names - {name}, gone))
      && (DirDone(files, base, blobs, uploads, dir, names, gone) ==>
        DirDone(files, base, blobs, uploads, dir, names - {name}, gone + {x}))
  {
    var x := SlotPath(base, (dir, name));
    if x !in blobs {
      forall p ensures Under(x, p) <==> Target(base, blobs, uploads, p) == Some(x) {
        DataTarget(base, blobs, uploads, dir, name, p);
      }
    }
  }

  lemma DirsStep(files: map<string, Bytes>, base: string, blobs: set<string>, uploads: set<string>,
                 dirs: set<string>, dir: string, gone: set<string>, gone': set<string>)
    requires gone <= gone'
    ensures
      && DataDone(files, base, blobs, uploads, dirs, gone)
      && DirDone(files, base, blobs, uploads, dir, {}, gone')
      ==> DataDone(files, base, blobs, uploads, dirs - {dir}, gone')
  {
  }

  lemma TmpStep(files: map<string, Bytes>, base: string, blobs: set<string>, uploads: set<string>,
                dirs: set<string>, gone: set<string>)
    ensures DataDone(files, base, blobs, uploads, dirs, gone) ==>
      DataDone(files, base, blobs, uploads, dirs - {".tmp"}, gone)
  {
  }

  lemma PartsStep(files: map<string, Bytes>, base: string, blobs: set<string>, uploads: set<string>,
                  dirs: set<string>, dir: string, gone: set<string>)
    requires '/' !in dir
    ensures var x := PartsDir(base) + dir;
      && (dir !in uploads ==> forall p :: Under(x, p) <==> Target(base, blobs, uploads, p) == Some(x))
      && (PartsDone(files, base, blobs, uploads, dirs, gone) && dir in uploads ==>
        PartsDone(files, base, blobs, uploads, dirs - {dir}, gone))
      && (PartsDone(files, base, blobs, uploads, dirs, gone) ==>
        PartsDone(files, base, blobs, uploads, dirs - {dir}, gone + {x}))
  {
    if dir !in uploads {
      forall p
        ensures Under(PartsDir(base) + dir, p) <==> Target(base, blobs, uploads, p) == Some(PartsDir(base) + dir)
      {
        PartsTarget(base, blobs, uploads, dir, p);
      }
    }
    forall p ensures DataSlot(base, p).Some? ==> PartsSlot(base, p).None? {
      SlotsApart(base, p);
    }
  }

  /** With both passes done, what is left is what was to be kept. */
  lemma SweepComplete(c: Config, w: World, blobs: set<string>, uploads: set<string>, gone: set<string>,
                      gone': set<string>)
    requires Exact(c, w, blobs, uploads) && gone <= gone'
    requires DataDone(w.files, c.base, blobs, uploads, {}, gone)
    requires PartsDone(w.files, c.base, blobs, uploads, {}, gone')
    ensures forall p :: p in Swept(w.files, c.base, blobs, uploads, gone') <==> p in w.files && Kept(c, w, p)
  {
    forall p | p in w.files
      ensures p in Swept(w.files, c.base, blobs, uploads, gone') <==> Kept(c, w, p)
    {
    }
  }

  /** The references of all buckets but these have been collected. */
  ghost predicate Marked(c: Config, w: World, left: set<string>, blobs: set<string>, uploads: set<string>) {
    && (forall p :: p in blobs <==> exists b :: b in w.dbs && b !in left && p in BlobRefs(w.dbs[b]))
    && (forall u :: u in uploads <==> exists b :: b in w.dbs && b !in left && u in UploadRefs(c.base, w.dbs[b]))
  }

  /** The references of the objects not left to be visited. */
  ghost predicate RefsSoFar(base: string, t: Tables, left: set<string>, blobs: set<string>, uploads: set<string>) {
    && (forall p :: p in blobs <==>
      exists k :: k in t.objects && k !in left && t.objects[k].hashPath == p && p != "")
    && (forall u :: u in uploads <==>
      exists k :: k in t.objects && k !in left && t.objects[k].hashPath == "" && u in ChunkUploads(base, t.objects[k]))
  }

  lemma RefsStart(base: string, t: Tables)
    ensures RefsSoFar(base, t, t.objects.Keys, {}, {})
  {
  }

  lemma RefsMore(base: string, t: Tables, left: set<string>, k: string, blobs: set<string>, uploads: set<string>)
    requires k in t.objects && k in left && RefsSoFar(base, t, left, blobs, uploads)
    ensures var o := t.objects[k];
      if o.hashPath != "" then RefsSoFar(base, t, left - {k}, blobs + {o.hashPath}, uploads)
      else RefsSoFar(base, t, left - {k}, blobs, uploads + ChunkUploads(base, o))
  {
    hide ChunkUploads;
  }

  lemma RefsEnd(base: string, t: Tables, blobs: set<string>, uploads: set<string>)
    requires RefsSoFar(base, t, {}, blobs, uploads)
    ensures blobs == BlobRefs(t) && t.uploads.Keys + uploads == UploadRefs(base, t)
  {
    hide ChunkUploads;
  }

  lemma MarkStart(c: Config, w: World)
    ensures Marked(c, w, w.dbs.Keys, {}, {})
  {
  }

  lemma MarkMore(c: Config, w: World, left: set<string>, b: string, blobs: set<string>, uploads: set<string>)
    requires b in w.dbs && b in left && Marked(c, w, left, blobs, uploads)
    ensures Marked(c, w, left - {b}, blobs + BlobRefs(w.dbs[b]), uploads + UploadRefs(c.base, w.dbs[b]))
  {
    hide BlobRefs, UploadRefs;
  }

  lemma MarkEnd(c: Config, w: World, blobs: set<string>, uploads: set<string>)
    requires Marked(c, w, {}, blobs, uploads)
    ensures Exact(c, w, blobs, uploads)
  {
  }

  lemma NothingSwept(w: World, base: string, blobs: set<string>, uploads: set<string>)
    ensures Swept(w.files, base, blobs, uploads, {}) == w.files
  {
  }
}
