/**
 What each kind of effect does to the invariant and to the contents readers see.
 */
module StoreSteps {
  import opened GoStrings
  import opened Wrappers
  import opened Layout
  import opened BucketTables
  import opened StoreModel

  // ------------------------------------------------------------ files

  /** Two contents with one blob path are the same contents. */
  lemma BlobPathInjective(c: Config, x: Bytes, y: Bytes)
    requires c.Valid() && x in c.bodies && y in c.bodies && c.BlobPath(x) == c.BlobPath(y)
    ensures x == y
  {
    DataPathInjective(c.base, c.sha(x), c.sha(y));
  }

  /** Uploading a blob never changes what is at its path, so no reader notices. */
  lemma BlobWritten(c: Config, w: World, data: Bytes)
    requires Inv(c, w) && data in c.bodies
    ensures Inv(c, w.WithFile(c.BlobPath(data), data))
    ensures SameContents(w, w.WithFile(c.BlobPath(data), data), {})
  {
    var p := c.BlobPath(data);
    var files' := w.files[p := data];
    forall x: Bytes | x in c.bodies && c.BlobPath(x) in files' ensures files'[c.BlobPath(x)] == x {
      if c.BlobPath(x) == p { BlobPathInjective(c, x, data); }
    }
    forall q | Needed(w, q) ensures AgreeOn(w.files, files', q) {
    }
    FilesFrame(c, w, files');
  }

  /** Files may disappear as long as nothing refers to them. */
  lemma FilesRemoved(c: Config, w: World, files': map<string, Bytes>)
    requires Inv(c, w)
    requires forall p :: p in files' ==> p in w.files && files'[p] == w.files[p]
    requires forall p :: p in w.files && Needed(w, p) ==> p in files'
    ensures Inv(c, w.(files := files')) && SameContents(w, w.(files := files'), {})
  {
    forall p | Needed(w, p) ensures AgreeOn(w.files, files', p) {
    }
    FilesFrame(c, w, files');
  }

  // ------------------------------------------------------------ objects

  /** Recording a blob object whose file is in place. */
  lemma BlobRecorded(c: Config, w: World, b: string, k: string, o: Object)
    requires Inv(c, w) && b in w.dbs
    requires o.chunks == [] && WellStored(c, w.files, o)
    ensures Inv(c, w.WithDb(b, w.dbs[b].WithObject(k, o)))
    ensures Updated(w, w.WithDb(b, w.dbs[b].WithObject(k, o)), b, k, Contents(w.files[o.hashPath]), {})
  {
    var w' := w.WithDb(b, w.dbs[b].WithObject(k, o));
    ObjectReplaced(c, w, w', b, k, o);
    OthersUntouched(w, w', b);
  }

  /** Where one object was replaced, everything else is where it was. */
  lemma ObjectReplaced(c: Config, w: World, w': World, b: string, k: string, o: Object)
    requires b in w.dbs && w' == w.WithDb(b, w.dbs[b].WithObject(k, o))
    ensures forall b', k' :: w'.Has(b', k') <==> w.Has(b', k') || (b', k') == (b, k)
    ensures forall b', k' :: w'.Has(b', k') ==> w'.Obj(b', k') == if (b', k') == (b, k) then o else w.Obj(b', k')
  {
  }

  lemma OthersUntouched(w: World, w': World, b: string)
    requires b in w.dbs && b in w'.dbs
    requires w'.dbs == w.dbs[b := w'.dbs[b]]
    requires w'.dbs[b].uploads == w.dbs[b].uploads && w'.dbs[b].parts == w.dbs[b].parts
    ensures forall b', u :: w'.Live(b', u) <==> w.Live(b', u)
    ensures forall b', u, n :: w'.HasPart(b', u, n) <==> w.HasPart(b', u, n)
    ensures forall b', u, n :: w'.HasPart(b', u, n) ==> w'.PartOf(b', u, n) == w.PartOf(b', u, n)
  {
  }

  lemma ObjectRemoved(c: Config, w: World, b: string, k: string)
    requires Inv(c, w) && b in w.dbs
    ensures Inv(c, w.WithDb(b, w.dbs[b].WithoutObject(k)))
    ensures Updated(w, w.WithDb(b, w.dbs[b].WithoutObject(k)), b, k, NoSuchObject, {})
  {
    var w' := w.WithDb(b, w.dbs[b].WithoutObject(k));
    assert forall b', k' :: w'.Has(b', k') <==> w.Has(b', k') && (b', k') != (b, k);
    assert forall b', k' :: w'.Has(b', k') ==> w'.Obj(b', k') == w.Obj(b', k');
    OthersUntouched(w, w', b);
  }

  // ------------------------------------------------------------ uploads

  /** An upload id never seen before, as a random UUID is taken to be. */
  ghost predicate Fresh(c: Config, w: World, u: string) {
    && '/' !in u
    && (forall b :: !w.Live(b, u))
    && (forall b, n :: !w.HasPart(b, u, n))
    && (forall b, k :: w.Has(b, k) ==> Owner(c, w.Obj(b, k)) != Some(u))
    && (forall b, k :: w.RemoteHas(b, k) ==> Owner(c, w.RemoteObj(b, k)) != Some(u))
  }

  lemma UploadCreated(c: Config, w: World, b: string, u: string, up: Upload)
    requires Inv(c, w) && b in w.dbs && Fresh(c, w, u)
    ensures Inv(c, w.WithDb(b, w.dbs[b].WithUpload(u, up)))
    ensures SameContents(w, w.WithDb(b, w.dbs[b].WithUpload(u, up)), {})
  {
    var w' := w.WithDb(b, w.dbs[b].WithUpload(u, up));
    assert forall b', k :: w'.Has(b', k) <==> w.Has(b', k);
    assert forall b', k :: w'.Has(b', k) ==> w'.Obj(b', k) == w.Obj(b', k);
    assert forall b', u' :: w'.Live(b', u') <==> w.Live(b', u') || (b', u') == (b, u);
    assert forall b', u', n :: w'.HasPart(b', u', n) <==> w.HasPart(b', u', n);
    assert forall b', u', n :: w'.HasPart(b', u', n) ==> w'.PartOf(b', u', n) == w.PartOf(b', u', n);
  }

  /** No object needs a part file of a live upload. */
  lemma LivePartsUnused(c: Config, w: World, b: string, u: string, n: int, o: Object)
    requires Inv(c, w) && '/' !in u && WellStored(c, w.files, o) && Owner(c, o) != Some(u)
    ensures !Needs(o, PartPath(c.base, u, n))
  {
    var p := PartPath(c.base, u, n);
    if o.chunks == [] {
      PathsUnderTheirDirectories(c.base, c.sha(w.files[o.hashPath]), u, n);
    } else if Needs(o, p) {
      var i :| 0 <= i < |o.chunks| && o.chunks[i].path == p;
      PartPathInjective(c.base, u, n, Owner(c, o).value, o.chunks[i].part);
    }
  }

  ghost function AfterPart(c: Config, w: World, b: string, u: string, n: int, data: Bytes): World
    requires b in w.dbs
  {
    var part := Part(PartPath(c.base, u, n), |data|, c.ETag(data));
    w.WithFile(part.path, data).WithDb(b, w.dbs[b].WithPart(u, n, part))
  }

  /** A part file and its record are written together; only that part changes. */
  lemma PartWritten(c: Config, w: World, b: string, u: string, n: int, data: Bytes)
    requires Inv(c, w) && w.Live(b, u)
    ensures Inv(c, AfterPart(c, w, b, u, n, data)) && SameContents(w, AfterPart(c, w, b, u, n, data), {u})
  {
    var w' := AfterPart(c, w, b, u, n, data);
    assert forall b', k :: w'.Has(b', k) <==> w.Has(b', k);
    assert forall b', k :: w'.Has(b', k) ==> w'.Obj(b', k) == w.Obj(b', k);
    assert forall b', u' :: w'.Live(b', u') <==> w.Live(b', u');
    forall b', k | w.Has(b', k)
      ensures WellStored(c, w'.files, w.Obj(b', k)) && Lookup(w', b', k) == Lookup(w, b', k)
    {
      LivePartsUnused(c, w, b, u, n, w.Obj(b', k));
      ObjectFrame(c, w.files, w'.files, w.Obj(b', k));
    }
    PartFileBlobs(c, w.files, u, n, data);
    OtherParts(c, w, b, u, n, data);
  }

  lemma OtherParts(c: Config, w: World, b: string, u: string, n: int, data: Bytes)
    requires Inv(c, w) && w.Live(b, u)
    ensures PartsStored(c, AfterPart(c, w, b, u, n, data)) && PartsKept(w, AfterPart(c, w, b, u, n, data), {u})
  {
    var w' := AfterPart(c, w, b, u, n, data);
    forall b', u', n' | w'.HasPart(b', u', n') && (b', u', n') != (b, u, n)
      ensures w.HasPart(b', u', n') && w.Live(b', u') && w'.PartOf(b', u', n') == w.PartOf(b', u', n')
      ensures AgreeOn(w.files, w'.files, w.PartOf(b', u', n').path)
      ensures PartStored(c, w'.files, u', n', w'.PartOf(b', u', n'))
    {
      assert w.HasPart(b', u', n') && w.Live(b', u');
      if PartPath(c.base, u', n') == PartPath(c.base, u, n) { PartPathInjective(c.base, u, n, u', n'); }
    }
    assert forall b', u' :: w'.Live(b', u') <==> w.Live(b', u');
  }

  lemma PartFileBlobs(c: Config, files: map<string, Bytes>, u: string, n: int, data: Bytes)
    requires c.Valid() && BlobsAddressed(c, files)
    ensures BlobsAddressed(c, files[PartPath(c.base, u, n) := data])
  {
    forall x: Bytes ensures c.BlobPath(x) != PartPath(c.base, u, n) {
      PathsUnderTheirDirectories(c.base, c.sha(x), u, n);
    }
  }

  /** The manifest entry made from an uploaded part. */
  function ChunkFrom(n: int, p: Part): Chunk {
    Chunk(n, p.path, p.size, TrimQuotes(p.etag))
  }

  /** strings.Trim(s, "\"") */
  function TrimQuotes(s: string): string {
    if s != [] && s[0] == '"' then TrimQuotes(s[1..])
    else if s != [] && s[|s| - 1] == '"' then TrimQuotes(s[..|s| - 1])
    else s
  }

  lemma TrimQuotesOfETag(c: Config, data: Bytes)
    requires c.Valid()
    ensures TrimQuotes(c.ETag(data)) == c.md5(data)
  {
    var e, m := c.ETag(data), c.md5(data);
    assert e[0] == '"' && e[1..] == m + "\"";
    TrimClosingQuote(m);
  }

  lemma TrimClosingQuote(m: string)
    requires '"' !in m
    ensures TrimQuotes(m + "\"") == m
  {
    var t := m + "\"";
    assert m != [] ==> m[0] in m && m[|m| - 1] in m;
    assert TrimQuotes(m) == m;
    assert t[|t| - 1] == '"' && t[..|m|] == m && t[1..] == if m == [] then [] else m[1..] + "\"";
  }

  ghost predicate ManifestOf(w: World, b: string, u: string, cs: seq<Chunk>) {
    forall i :: 0 <= i < |cs| ==>
      w.HasPart(b, u, cs[i].part) && cs[i] == ChunkFrom(cs[i].part, w.PartOf(b, u, cs[i].part))
  }

  /** Turning the parts of a live upload into an object. */
  lemma UploadCompleted(c: Config, w: World, b: string, u: string, k: string, o: Object)
    requires Inv(c, w) && w.Live(b, u)
    requires o.chunks != [] && o.hashPath == "" && o.size == TotalSize(o.chunks) && ManifestOf(w, b, u, o.chunks)
    ensures
      var w' := w.WithDb(b, w.dbs[b].WithObject(k, o).WithoutUpload(u));
      && Inv(c, w')
      && Concat(w.files, o.chunks).Some?
      && Updated(w, w', b, k, Contents(Concat(w.files, o.chunks).value), {u})
  {
    var w' := w.WithDb(b, w.dbs[b].WithObject(k, o).WithoutUpload(u));
    ManifestStored(c, w, b, u, o);
    WellStoredReadable(c, w.files, o);
    ObjectReplaced(c, w, w.WithDb(b, w.dbs[b].WithObject(k, o)), b, k, o);
    assert forall b', k' :: w'.Has(b', k') <==> w.Has(b', k') || (b', k') == (b, k);
    assert forall b', k' :: w'.Has(b', k') ==> w'.Obj(b', k') == if (b', k') == (b, k) then o else w.Obj(b', k');
    UploadForgotten(w, w', b, u);
  }

  lemma ManifestStored(c: Config, w: World, b: string, u: string, o: Object)
    requires Inv(c, w) && w.Live(b, u)
    requires o.chunks != [] && o.hashPath == "" && o.size == TotalSize(o.chunks) && ManifestOf(w, b, u, o.chunks)
    ensures Owner(c, o) == Some(u) && WellStored(c, w.files, o)
  {
    forall i | 0 <= i < |o.chunks| ensures ChunkStored(c, w.files, u, o.chunks[i]) {
      var n := o.chunks[i].part;
      assert PartStored(c, w.files, u, n, w.PartOf(b, u, n));
      TrimQuotesOfETag(c, w.files[o.chunks[i].path]);
    }
    assert ChunkStored(c, w.files, u, o.chunks[0]);
    UploadOfPartPath(c.base, u, o.chunks[0].part);
  }

  lemma UploadForgotten(w: World, w': World, b: string, u: string)
    requires b in w.dbs && b in w'.dbs && w'.dbs == w.dbs[b := w'.dbs[b]]
    requires w'.dbs[b].uploads == w.dbs[b].uploads - {u}
    requires w'.dbs[b].parts == w.dbs[b].parts - w.dbs[b].PartKeys(u)
    ensures forall b', u' :: w'.Live(b', u') <==> w.Live(b', u') && (b', u') != (b, u)
    ensures forall b', u', n :: w'.HasPart(b', u', n) <==> w.HasPart(b', u', n) && (b', u') != (b, u)
    ensures forall b', u', n :: w'.HasPart(b', u', n) ==> w'.PartOf(b', u', n) == w.PartOf(b', u', n)
  {
  }

  /** Aborting: the records go, and any of the part files may go with them. */
  lemma UploadAborted(c: Config, w: World, b: string, u: string, files': map<string, Bytes>)
    requires Inv(c, w) && w.Live(b, u)
    requires forall p :: p in files' ==> p in w.files && files'[p] == w.files[p]
    requires forall p :: p in w.files && UploadOf(c.base, p) != Some(u) ==> p in files'
    ensures
      var w' := w.(files := files').WithDb(b, w.dbs[b].WithoutUpload(u));
      Inv(c, w') && SameContents(w, w', {u})
  {
    hide Inv, Needed;
    var w1 := w.WithDb(b, w.dbs[b].WithoutUpload(u));
    RecordsForgotten(c, w, b, u);
    forall p | p in w.files && Needed(w1, p) ensures p in files' {
      NotNeededAfterAbort(c, w, w1, b, u, p);
    }
    FilesRemoved(c, w1, files');
    assert w1.(files := files') == w.(files := files').WithDb(b, w.dbs[b].WithoutUpload(u));
  }

  lemma RecordsForgotten(c: Config, w: World, b: string, u: string)
    requires Inv(c, w) && w.Live(b, u)
    ensures var w1 := w.WithDb(b, w.dbs[b].WithoutUpload(u));
      Inv(c, w1) && SameContents(w, w1, {u})
  {
    var w1 := w.WithDb(b, w.dbs[b].WithoutUpload(u));
    assert forall b', k :: w1.Has(b', k) <==> w.Has(b', k);
    assert forall b', k :: w1.Has(b', k) ==> w1.Obj(b', k) == w.Obj(b', k);
    UploadForgotten(w, w1, b, u);
  }

  lemma NotNeededAfterAbort(c: Config, w: World, w1: World, b: string, u: string, p: string)
    requires Inv(c, w) && Inv(c, w1) && w.Live(b, u) && Needed(w1, p)
    requires w1 == w.WithDb(b, w.dbs[b].WithoutUpload(u))
    ensures UploadOf(c.base, p) != Some(u)
  {
    UploadForgotten(w, w1, b, u);
    if b', k :| w1.Has(b', k) && Needs(w1.Obj(b', k), p) {
      assert w.Has(b', k);
      NeedsWithinOwner(c, w1.files, w1.Obj(b', k), p);
    } else {
      var b', u', n :| w1.HasPart(b', u', n) && w1.PartOf(b', u', n).path == p;
      assert w1.Live(b', u');
      UploadOfPartPath(c.base, u', n);
      assert w.Live(b', u');
    }
  }

  lemma NeedsWithinOwner(c: Config, files: map<string, Bytes>, o: Object, p: string)
    requires c.Valid() && WellStored(c, files, o) && Needs(o, p)
    ensures UploadOf(c.base, p) == Owner(c, o)
  {
    if o.chunks == [] {
      BlobOutsideParts(c, files[p]);
    } else {
      var i :| 0 <= i < |o.chunks| && o.chunks[i].path == p;
      UploadOfPartPath(c.base, Owner(c, o).value, o.chunks[i].part);
    }
  }

  lemma BlobOutsideParts(c: Config, data: Bytes)
    requires c.Valid()
    ensures UploadOf(c.base, c.BlobPath(data)) == None
  {
    PathsUnderTheirDirectories(c.base, c.sha(data), "", 0);
    DataAndPartsDisjoint(c.base, c.BlobPath(data));
  }

  lemma NeedsStoragePath(c: Config, files: map<string, Bytes>, o: Object, p: string)
    requires c.Valid() && WellStored(c, files, o) && Needs(o, p)
    ensures StoragePath(c.base, c.sha, p)
  {
    if o.chunks == [] {
      assert p == DataPath(c.base, c.sha(files[p]));
    } else {
      var i :| 0 <= i < |o.chunks| && o.chunks[i].path == p;
      assert ChunkStored(c, files, Owner(c, o).value, o.chunks[i]);
    }
  }

  /** Deleting one file nothing refers to. */
  lemma FileDropped(c: Config, w: World, p: string)
    requires Inv(c, w) && StoragePath(c.base, c.sha, p) && !Needed(w, p)
    ensures Inv(c, w.(files := RemoveTree(w.files, p)))
    ensures SameContents(w, w.(files := RemoveTree(w.files, p)), {})
  {
    forall q | q in w.files && Needed(w, q) ensures q in RemoveTree(w.files, p) {
      if Under(p, q) { NothingBelow(c.base, c.sha, p, q); }
    }
    FilesRemoved(c, w, RemoveTree(w.files, p));
  }

  // ------------------------------------------------------------ what a request leaves alone

  /** New files are blobs and part files, where the layout puts them. */
  ghost predicate PathsKept(c: Config, files: map<string, Bytes>, files': map<string, Bytes>) {
    forall p :: p in files' ==> p in files || (IsSha256(c.sha) && StoragePath(c.base, c.sha, p))
  }

  /** Ids not drawn yet stay fresh, `id` excepted, and files stay within the layout. */
  ghost predicate Contained(c: Config, w: World, w': World, id: string) {
    && (forall u :: u != id && Fresh(c, w, u) ==> Fresh(c, w', u))
    && PathsKept(c, w.files, w'.files)
  }

  lemma ContainedThrough(c: Config, w: World, w1: World, w2: World, id: string)
    requires Contained(c, w, w1, id) && Contained(c, w1, w2, id)
    ensures Contained(c, w, w2, id)
  {
  }

  lemma ContainedFiles(c: Config, w: World, w': World, id: string)
    requires w'.dbs == w.dbs && w'.remote == w.remote && PathsKept(c, w.files, w'.files)
    ensures Contained(c, w, w', id)
  {
    assert forall b, u :: w'.Live(b, u) <==> w.Live(b, u);
    assert forall b, u, n :: w'.HasPart(b, u, n) <==> w.HasPart(b, u, n);
    assert forall b, k :: w'.Has(b, k) <==> w.Has(b, k);
    assert forall b, k :: w'.RemoteHas(b, k) <==> w.RemoteHas(b, k);
  }

  lemma ContainedSync(c: Config, w: World, b: string, id: string)
    requires b in w.dbs
    ensures Contained(c, w, w.Synced(b), id)
  {
    var w' := w.Synced(b);
    assert forall b, u :: w'.Live(b, u) <==> w.Live(b, u);
    assert forall b, u, n :: w'.HasPart(b, u, n) <==> w.HasPart(b, u, n);
    assert forall b, k :: w'.Has(b, k) <==> w.Has(b, k);
    forall b', k | w'.RemoteHas(b', k)
      ensures if b' == b then w.Has(b', k) && w'.RemoteObj(b', k) == w.Obj(b', k)
              else w.RemoteHas(b', k) && w'.RemoteObj(b', k) == w.RemoteObj(b', k)
    {
    }
  }

  /** Changing one bucket's tables mentions no new id but those the change brings. */
  lemma ContainedTables(c: Config, w: World, b: string, t: Tables, id: string)
    requires b in w.dbs
    requires forall u :: u in t.uploads ==> u in w.dbs[b].uploads || u == id
    requires forall q :: q in t.parts ==> q in w.dbs[b].parts || q.0 == id
    requires forall k :: k in t.objects ==>
      (k in w.dbs[b].objects && t.objects[k] == w.dbs[b].objects[k]) || Owner(c, t.objects[k]) in {None, Some(id)}
    ensures Contained(c, w, w.WithDb(b, t), id)
  {
    var w' := w.WithDb(b, t);
    forall u | u != id && Fresh(c, w, u)
      ensures Fresh(c, w', u)
    {
      forall b' ensures !w'.Live(b', u) {
        assert !w.Live(b', u);
      }
      forall b', n ensures !w'.HasPart(b', u, n) {
        assert !w.HasPart(b', u, n);
      }
      forall b', k | w'.Has(b', k) ensures Owner(c, w'.Obj(b', k)) != Some(u) {
        assert w.Has(b', k) ==> Owner(c, w.Obj(b', k)) != Some(u);
      }
      assert forall b', k :: w'.RemoteHas(b', k) <==> w.RemoteHas(b', k);
    }
  }

  lemma ContainedCompletion(c: Config, w: World, b: string, u: string, k: string, o: Object)
    requires Inv(c, w) && w.Live(b, u)
    requires o.chunks != [] && o.hashPath == "" && o.size == TotalSize(o.chunks) && ManifestOf(w, b, u, o.chunks)
    ensures Contained(c, w, AfterCompletion(w, b, k, u, o), u)
  {
    ManifestStored(c, w, b, u, o);
    ContainedTables(c, w, b, w.dbs[b].WithObject(k, o).WithoutUpload(u), u);
  }

  /** What one request changes in the tables of a bucket, published or not. */
  lemma ContainedPublish(c: Config, w: World, w1: World, w2: World, b: string, id: string)
    requires Contained(c, w, w1, id) && b in w1.dbs
    requires w2 == w1 || w2 == w1.Synced(b)
    ensures Contained(c, w, w2, id)
  {
    ContainedSync(c, w1, b, id);
  }
}
