/**
 The object store as a value: the local tables of every bucket on one WebDAV
 location, the data and part files there, and the metadata snapshots last
 uploaded.  Each lemma below is about one kind of effect; the services compose
 them.
 */
module StoreModel {
  import opened GoStrings
  import opened Wrappers
  import opened Layout
  import opened BucketTables

  /**
   The base directory of the location, the two digests in hex, hex decoding, and the
   contents that are ever stored as blobs there: SHA-256 has to tell only these apart.
   */
  datatype Config = Config(base: string, sha: Bytes -> string, md5: Bytes -> string, unhex: string -> Bytes,
                           bodies: iset<Bytes>)
  {
    ghost predicate Valid() {
      IsSha256(sha) && NoCollision(sha, bodies) && forall x :: '"' !in md5(x)
    }

    function BlobPath(data: Bytes): string
      requires |sha(data)| >= 2
    {
      DataPath(base, sha(data))
    }

    function ETag(data: Bytes): string {
      "\"" + md5(data) + "\""
    }
  }

  /** Contents that could be digests themselves. */
  predicate LikeDigest(x: Bytes) {
    |x| == 64 && '/' !in x
  }

  /** Digests as required exist: this one tells all contents of 64 characters apart. */
  lemma ConfigExists(base: string)
    ensures exists c: Config :: c.Valid() && c.base == base && forall x :: LikeDigest(x) ==> x in c.bodies
  {
    var sha := (x: Bytes) => if LikeDigest(x) then x else seq(64, _ => '0');
    var c := Config(base, sha, (x: Bytes) => "", (x: string) => x, iset x: Bytes | LikeDigest(x));
    assert c.Valid() && forall x :: LikeDigest(x) ==> x in c.bodies;
  }

  datatype World = World(dbs: map<string, Tables>, files: map<string, Bytes>, remote: map<string, Tables>)
  {
    ghost predicate Has(b: string, k: string) {
      b in dbs && k in dbs[b].objects
    }

    ghost function Obj(b: string, k: string): Object
      requires Has(b, k)
    {
      dbs[b].objects[k]
    }

    ghost predicate RemoteHas(b: string, k: string) {
      b in remote && k in remote[b].objects
    }

    ghost function RemoteObj(b: string, k: string): Object
      requires RemoteHas(b, k)
    {
      remote[b].objects[k]
    }

    ghost predicate Live(b: string, u: string) {
      b in dbs && u in dbs[b].uploads
    }

    ghost predicate HasPart(b: string, u: string, n: int) {
      b in dbs && (u, n) in dbs[b].parts
    }

    ghost function PartOf(b: string, u: string, n: int): Part
      requires HasPart(b, u, n)
    {
      dbs[b].parts[(u, n)]
    }

    function WithDb(b: string, t: Tables): World {
      this.(dbs := dbs[b := t])
    }

    function WithFile(p: string, data: Bytes): World {
      this.(files := files[p := data])
    }

    function Synced(b: string): World
      requires b in dbs
    {
      this.(remote := remote[b := dbs[b]])
    }
  }

  /** The bucket's tables with a completed object in place of its upload. */
  function AfterCompletion(w: World, b: string, k: string, u: string, o: Object): World
    requires b in w.dbs
  {
    w.WithDb(b, w.dbs[b].WithObject(k, o).WithoutUpload(u))
  }

  /** Some object of the bucket is stored in this blob. */
  ghost predicate RefersIn(w: World, b: string, p: string) {
    exists k :: w.Has(b, k) && w.Obj(b, k).hashPath == p
  }

  /** Some object, in any bucket on the location, is stored in this blob. */
  ghost predicate Shared(w: World, p: string) {
    exists b :: RefersIn(w, b, p)
  }

  /** The chunks of a manifest, read one after the other. */
  function Concat(files: map<string, Bytes>, cs: seq<Chunk>): Option<Bytes> {
    if cs == [] then Some([])
    else
      var before := Concat(files, cs[..|cs| - 1]);
      var p := cs[|cs| - 1].path;
      if before.Some? && p in files then Some(before.value + files[p]) else None
  }

  function ContentOf(files: map<string, Bytes>, o: Object): Option<Bytes> {
    if o.chunks != [] then Concat(files, o.chunks)
    else if o.hashPath in files then Some(files[o.hashPath])
    else None
  }

  datatype Found = NoSuchObject | Unreadable | Contents(data: Bytes)

  /** What a reader of (bucket, key) gets when the network does not fail. */
  ghost function Lookup(w: World, b: string, k: string): Found {
    if !w.Has(b, k) then NoSuchObject
    else
      var content := ContentOf(w.files, w.Obj(b, k));
      if content.Some? then Contents(content.value) else Unreadable
  }

  /** Parts recorded after were recorded before, with the same bytes; these uploads excepted. */
  ghost predicate PartsKept(w: World, w': World, touched: set<string>) {
    forall b, u, n :: u !in touched && w'.HasPart(b, u, n) ==>
      && w.HasPart(b, u, n) && w'.PartOf(b, u, n) == w.PartOf(b, u, n)
      && AgreeOn(w.files, w'.files, w.PartOf(b, u, n).path)
  }

  /** No reader notices a difference, and parts in progress stay as they are. */
  ghost predicate SameContents(w: World, w': World, touched: set<string>) {
    && (forall b, k :: Lookup(w', b, k) == Lookup(w, b, k))
    && PartsKept(w, w', touched)
  }

  /** Readers of one key get something new; nothing else changes. */
  ghost predicate Updated(w: World, w': World, bucket: string, key: string, entry: Found, touched: set<string>) {
    && (forall b, k :: Lookup(w', b, k) == if (b, k) == (bucket, key) then entry else Lookup(w, b, k))
    && PartsKept(w, w', touched)
  }

  lemma SameReflexive(w: World)
    ensures forall x :: SameContents(w, w, x)
  {
  }

  lemma SameTransitive(w: World, x: set<string>, w1: World, y: set<string>, w2: World, touched: set<string>)
    requires SameContents(w, w1, x) && SameContents(w1, w2, y) && x <= touched && y <= touched
    ensures SameContents(w, w2, touched)
  {
  }

  lemma UpdatedThrough(w: World, x: set<string>, w1: World, y: set<string>, w2: World, z: set<string>, w3: World,
                       b: string, k: string, entry: Found, touched: set<string>)
    requires SameContents(w, w1, x) && Updated(w1, w2, b, k, entry, y) && SameContents(w2, w3, z)
    requires x <= touched && y <= touched && z <= touched
    ensures Updated(w, w3, b, k, entry, touched)
  {
  }

  lemma SameWiden(w: World, w': World, u: string)
    requires SameContents(w, w', {})
    ensures SameContents(w, w', {u})
  {
  }

  lemma UpdatedWiden(w: World, w': World, b: string, k: string, entry: Found, u: string)
    ensures SameContents(w, w', {}) ==> SameContents(w, w', {u})
    ensures Updated(w, w', b, k, entry, {}) ==> Updated(w, w', b, k, entry, {u})
  {
  }

  /** The upload whose part files hold a chunked object. */
  ghost function Owner(c: Config, o: Object): Option<string> {
    if o.chunks == [] then None else UploadOf(c.base, o.chunks[0].path)
  }

  ghost predicate ChunkStored(c: Config, files: map<string, Bytes>, u: string, ch: Chunk) {
    && ch.path == PartPath(c.base, u, ch.part)
    && ch.path in files
    && ch.size == |files[ch.path]|
    && ch.md5 == c.md5(files[ch.path])
  }

  /**
   All data of an object is there and is the data its record describes: a blob
   by its SHA-256, a chunk by its size and MD5.
   */
  ghost predicate WellStored(c: Config, files: map<string, Bytes>, o: Object)
    requires IsSha256(c.sha)
  {
    if o.chunks == [] then
      && o.hashPath in files
      && o.hashPath == c.BlobPath(files[o.hashPath])
      && o.size == |files[o.hashPath]|
    else
      && o.hashPath == ""
      && Owner(c, o).Some?
      && '/' !in Owner(c, o).value
      && (forall i :: 0 <= i < |o.chunks| ==> ChunkStored(c, files, Owner(c, o).value, o.chunks[i]))
      && o.size == TotalSize(o.chunks)
  }

  function TotalSize(cs: seq<Chunk>): nat {
    if cs == [] then 0 else TotalSize(cs[..|cs| - 1]) + cs[|cs| - 1].size
  }

  ghost predicate PartStored(c: Config, files: map<string, Bytes>, u: string, n: int, p: Part) {
    && p.path == PartPath(c.base, u, n)
    && p.path in files
    && p.size == |files[p.path]|
    && p.etag == c.ETag(files[p.path])
  }

  ghost predicate ObjectsStored(c: Config, w: World)
    requires IsSha256(c.sha)
  {
    forall b, k :: w.Has(b, k) ==> WellStored(c, w.files, w.Obj(b, k))
  }

  ghost predicate BlobsAddressed(c: Config, files: map<string, Bytes>)
    requires IsSha256(c.sha)
  {
    forall x: Bytes :: x in c.bodies && c.BlobPath(x) in files ==> files[c.BlobPath(x)] == x
  }

  /** A live upload belongs to one bucket, and no object refers to its parts. */
  ghost predicate UploadsPrivate(c: Config, w: World) {
    && (forall b, u :: w.Live(b, u) ==> '/' !in u)
    && (forall b, u, b', k :: w.Live(b, u) && w.Has(b', k) ==> Owner(c, w.Obj(b', k)) != Some(u))
    && (forall b, b', u :: w.Live(b, u) && w.Live(b', u) ==> b == b')
  }

  ghost predicate PartsStored(c: Config, w: World) {
    forall b, u, n :: w.HasPart(b, u, n) ==> w.Live(b, u) && PartStored(c, w.files, u, n, w.PartOf(b, u, n))
  }

  /** No two objects share part files. */
  ghost predicate OwnersDistinct(c: Config, w: World) {
    forall b, k, b', k' :: w.Has(b, k) && w.Has(b', k') && (b, k) != (b', k') && Owner(c, w.Obj(b, k)).Some? ==>
      Owner(c, w.Obj(b, k)) != Owner(c, w.Obj(b', k'))
  }

  ghost predicate Inv(c: Config, w: World) {
    && c.Valid()
    && ObjectsStored(c, w)
    && BlobsAddressed(c, w.files)
    && UploadsPrivate(c, w)
    && PartsStored(c, w)
    && OwnersDistinct(c, w)
  }

  /** The store answers every read: nothing recorded has lost its data. */
  lemma NothingUnreadable(c: Config, w: World, b: string, k: string)
    requires Inv(c, w)
    ensures Lookup(w, b, k) != Unreadable
    ensures Lookup(w, b, k).Contents? ==> |Lookup(w, b, k).data| == w.Obj(b, k).size
  {
    if w.Has(b, k) {
      WellStoredReadable(c, w.files, w.Obj(b, k));
    }
  }

  lemma WellStoredReadable(c: Config, files: map<string, Bytes>, o: Object)
    requires IsSha256(c.sha) && WellStored(c, files, o)
    ensures ContentOf(files, o).Some? && |ContentOf(files, o).value| == o.size
  {
    if o.chunks != [] {
      ConcatDefined(c, files, Owner(c, o).value, o.chunks);
    }
  }

  lemma {:induction false} ConcatDefined(c: Config, files: map<string, Bytes>, u: string, cs: seq<Chunk>)
    requires forall i :: 0 <= i < |cs| ==> ChunkStored(c, files, u, cs[i])
    ensures Concat(files, cs).Some? && |Concat(files, cs).value| == TotalSize(cs)
  {
    if cs != [] {
      assert ChunkStored(c, files, u, cs[|cs| - 1]);
      ConcatDefined(c, files, u, cs[..|cs| - 1]);
    }
  }

  // ------------------------------------------------------------ references

  /** The paths an object needs. */
  ghost predicate Needs(o: Object, p: string) {
    if o.chunks == [] then p == o.hashPath else exists i :: 0 <= i < |o.chunks| && o.chunks[i].path == p
  }

  /** The paths the local tables need, for objects and for parts in progress. */
  ghost predicate Needed(w: World, p: string) {
    || (exists b, k :: w.Has(b, k) && Needs(w.Obj(b, k), p))
    || (exists b, u, n :: w.HasPart(b, u, n) && w.PartOf(b, u, n).path == p)
  }

  ghost predicate AgreeOn(files: map<string, Bytes>, files': map<string, Bytes>, p: string) {
    (p in files <==> p in files') && (p in files ==> files'[p] == files[p])
  }

  lemma {:induction false} ConcatFrame(files: map<string, Bytes>, files': map<string, Bytes>, cs: seq<Chunk>)
    requires forall i :: 0 <= i < |cs| ==> AgreeOn(files, files', cs[i].path)
    ensures Concat(files', cs) == Concat(files, cs)
  {
    if cs != [] {
      ConcatFrame(files, files', cs[..|cs| - 1]);
      assert AgreeOn(files, files', cs[|cs| - 1].path);
    }
  }

  /** An object depends on the files it needs and on no others. */
  lemma ObjectFrame(c: Config, files: map<string, Bytes>, files': map<string, Bytes>, o: Object)
    requires IsSha256(c.sha)
    requires forall p :: Needs(o, p) ==> AgreeOn(files, files', p)
    ensures ContentOf(files', o) == ContentOf(files, o)
    ensures WellStored(c, files, o) ==> WellStored(c, files', o)
  {
    if o.chunks == [] {
      assert Needs(o, o.hashPath);
    } else {
      forall i | 0 <= i < |o.chunks| ensures AgreeOn(files, files', o.chunks[i].path) {
        assert Needs(o, o.chunks[i].path);
      }
      ConcatFrame(files, files', o.chunks);
    }
  }

  /** The general frame rule: files nobody refers to may come and go. */
  lemma FilesFrame(c: Config, w: World, files': map<string, Bytes>)
    requires Inv(c, w)
    requires forall p :: Needed(w, p) ==> AgreeOn(w.files, files', p)
    requires BlobsAddressed(c, files')
    ensures Inv(c, w.(files := files')) && SameContents(w, w.(files := files'), {})
  {
    var w' := w.(files := files');
    forall b, k | w.Has(b, k)
      ensures WellStored(c, files', w.Obj(b, k)) && Lookup(w', b, k) == Lookup(w, b, k)
    {
      forall p | Needs(w.Obj(b, k), p) ensures AgreeOn(w.files, files', p) {
        assert Needed(w, p);
      }
      ObjectFrame(c, w.files, files', w.Obj(b, k));
      assert w'.Has(b, k) && w'.Obj(b, k) == w.Obj(b, k);
    }
    forall b, u, n | w'.HasPart(b, u, n)
      ensures w'.Live(b, u) && PartStored(c, files', u, n, w'.PartOf(b, u, n))
    {
      assert w.HasPart(b, u, n) && w.Live(b, u);
      assert Needed(w, w.PartOf(b, u, n).path);
    }
    assert forall b, k :: w'.Has(b, k) <==> w.Has(b, k);
    assert forall b, u :: w'.Live(b, u) <==> w.Live(b, u);
  }
}
