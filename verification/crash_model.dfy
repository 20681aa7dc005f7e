/**
 What survives a crash: the files and the metadata snapshots on the WebDAV server.
 */
module CrashModel {
  import opened GoStrings
  import opened Wrappers
  import opened Layout
  import opened BucketTables
  import opened StoreModel
  import opened StoreSteps

  /** The server's disk at some instant. */
  datatype Disk = Disk(files: map<string, Bytes>, remote: map<string, Tables>)

  function DiskOf(w: World): Disk {
    Disk(w.files, w.remote)
  }

  /** A daemon starting from this disk finds all data of every object in the snapshots. */
  ghost predicate Readable(c: Config, d: Disk) {
    c.Valid() && forall b, k :: b in d.remote && k in d.remote[b].objects ==>
      WellStored(c, d.files, d.remote[b].objects[k])
  }

  /**
   What keeps the snapshots readable while the local tables run ahead of them: no
   live upload may overwrite, and no other bucket may delete, part files that a
   snapshot refers to.
   */
  ghost predicate Recoverable(c: Config, w: World) {
    && Readable(c, DiskOf(w))
    && (forall b, u, b', k :: w.Live(b, u) && w.RemoteHas(b', k) ==> Owner(c, w.RemoteObj(b', k)) != Some(u))
    && (forall b, k, b', k' :: w.Has(b, k) && w.RemoteHas(b', k') && b != b' && Owner(c, w.Obj(b, k)).Some? ==>
      Owner(c, w.Obj(b, k)) != Owner(c, w.RemoteObj(b', k')))
  }

  /**
   Some other bucket's snapshot refers to a file.  Where the local tables no longer need
   the file, that snapshot is outdated.
   */
  ghost predicate StaleElsewhere(w: World, b: string, p: string) {
    exists b', k :: b' != b && w.RemoteHas(b', k) && Needs(w.RemoteObj(b', k), p)
  }

  lemma ReadableFrame(c: Config, d: Disk, files': map<string, Bytes>)
    requires Readable(c, d)
    requires forall b, k, p :: b in d.remote && k in d.remote[b].objects && Needs(d.remote[b].objects[k], p) ==>
      AgreeOn(d.files, files', p)
    ensures Readable(c, d.(files := files'))
  {
    forall b, k | b in d.remote && k in d.remote[b].objects
      ensures WellStored(c, files', d.remote[b].objects[k])
    {
      ObjectFrame(c, d.files, files', d.remote[b].objects[k]);
    }
  }

  lemma BlobWriteRecoverable(c: Config, w: World, data: Bytes)
    requires Inv(c, w) && Recoverable(c, w) && data in c.bodies
    ensures Recoverable(c, w.WithFile(c.BlobPath(data), data))
  {
    var w' := w.WithFile(c.BlobPath(data), data);
    forall b, k, p | w.RemoteHas(b, k) && Needs(w.RemoteObj(b, k), p) ensures AgreeOn(w.files, w'.files, p) {
    }
    ReadableFrame(c, DiskOf(w), w'.files);
    SameRecords(w, w');
  }

  /** Worlds with the same tables and snapshots. */
  lemma SameRecords(w: World, w': World)
    requires w'.dbs == w.dbs && w'.remote == w.remote
    ensures forall b, u :: w'.Live(b, u) <==> w.Live(b, u)
    ensures forall b, k :: w'.Has(b, k) <==> w.Has(b, k)
    ensures forall b, k :: w'.Has(b, k) ==> w'.Obj(b, k) == w.Obj(b, k)
    ensures forall b, k :: w'.RemoteHas(b, k) <==> w.RemoteHas(b, k)
    ensures forall b, k :: w'.RemoteHas(b, k) ==> w'.RemoteObj(b, k) == w.RemoteObj(b, k)
  {
  }

  /** Writing or deleting part files of a live upload is invisible to every snapshot. */
  lemma PartFilesRecoverable(c: Config, w: World, b: string, u: string, files': map<string, Bytes>)
    requires Recoverable(c, w) && w.Live(b, u)
    requires forall p :: UploadOf(c.base, p) != Some(u) ==> AgreeOn(w.files, files', p)
    ensures Recoverable(c, w.(files := files'))
  {
    forall b', k, p | b' in w.remote && k in w.remote[b'].objects && Needs(w.remote[b'].objects[k], p)
      ensures AgreeOn(w.files, files', p)
    {
      SnapshotAvoidsLiveParts(c, w, b, u, b', k, p);
    }
    ReadableFrame(c, DiskOf(w), files');
    SameRecords(w, w.(files := files'));
  }

  lemma SnapshotAvoidsLiveParts(c: Config, w: World, b: string, u: string, b': string, k: string, p: string)
    requires Recoverable(c, w) && w.Live(b, u)
    requires w.RemoteHas(b', k) && Needs(w.RemoteObj(b', k), p)
    ensures UploadOf(c.base, p) != Some(u)
  {
    assert WellStored(c, w.files, DiskOf(w).remote[b'].objects[k]);
    NeedsWithinOwner(c, w.files, w.RemoteObj(b', k), p);
  }

  /** Recording a blob, dropping an object, or dropping an upload leaves the disk alone. */
  lemma LocalStepRecoverable(c: Config, w: World, w': World)
    requires Recoverable(c, w)
    requires DiskOf(w') == DiskOf(w)
    requires forall b, u :: w'.Live(b, u) ==> w.Live(b, u)
    requires forall b, k :: w'.Has(b, k) && Owner(c, w'.Obj(b, k)).Some? ==>
      (w.Has(b, k) && w'.Obj(b, k) == w.Obj(b, k)) || w.Live(b, Owner(c, w'.Obj(b, k)).value)
    ensures Recoverable(c, w')
  {
    forall b, k, b', k' | w'.Has(b, k) && w'.RemoteHas(b', k') && b != b' && Owner(c, w'.Obj(b, k)).Some?
      ensures Owner(c, w'.Obj(b, k)) != Owner(c, w'.RemoteObj(b', k'))
    {
      assert w.RemoteHas(b', k') && w.RemoteObj(b', k') == w'.RemoteObj(b', k');
    }
    forall b, u, b', k | w'.Live(b, u) && w'.RemoteHas(b', k)
      ensures Owner(c, w'.RemoteObj(b', k)) != Some(u)
    {
      assert w.RemoteHas(b', k) && w.RemoteObj(b', k) == w'.RemoteObj(b', k);
    }
  }

  lemma FreshUploadRecoverable(c: Config, w: World, b: string, u: string, up: Upload)
    requires Recoverable(c, w) && b in w.dbs && Fresh(c, w, u)
    ensures Recoverable(c, w.WithDb(b, w.dbs[b].WithUpload(u, up)))
  {
    var w' := w.WithDb(b, w.dbs[b].WithUpload(u, up));
    assert forall b', k :: w'.Has(b', k) <==> w.Has(b', k);
    assert forall b', k :: w'.Has(b', k) ==> w'.Obj(b', k) == w.Obj(b', k);
    assert forall b', u' :: w'.Live(b', u') <==> w.Live(b', u') || (b', u') == (b, u);
    assert forall b', k :: w'.RemoteHas(b', k) <==> w.RemoteHas(b', k);
    assert forall b', k :: w'.RemoteHas(b', k) ==> w'.RemoteObj(b', k) == w.RemoteObj(b', k);
  }

  /** Uploading the metadata of a bucket: its data has been in place all along. */
  lemma SyncRecoverable(c: Config, w: World, b: string)
    requires Inv(c, w) && Recoverable(c, w) && b in w.dbs
    ensures Recoverable(c, w.Synced(b))
    ensures Inv(c, w.Synced(b)) && SameContents(w, w.Synced(b), {})
  {
    var w' := w.Synced(b);
    RemoteAfterSync(w, b);
    forall b', k | b' in w'.remote && k in w'.remote[b'].objects
      ensures WellStored(c, w'.files, w'.remote[b'].objects[k])
    {
      if b' == b {
        assert w.Has(b, k) && WellStored(c, w.files, w.Obj(b, k));
      } else {
        assert b' in DiskOf(w).remote && k in DiskOf(w).remote[b'].objects;
      }
    }
    SyncKeepsInv(c, w, b);
  }

  lemma RemoteAfterSync(w: World, b: string)
    requires b in w.dbs
    ensures var w' := w.Synced(b);
      && (forall b', k :: w'.RemoteHas(b', k) <==> if b' == b then w.Has(b, k) else w.RemoteHas(b', k))
      && (forall b', k :: w'.RemoteHas(b', k) ==>
        w'.RemoteObj(b', k) == if b' == b then w.Obj(b, k) else w.RemoteObj(b', k))
      && (forall b', u :: w'.Live(b', u) <==> w.Live(b', u))
      && (forall b', k :: w'.Has(b', k) <==> w.Has(b', k))
      && (forall b', k :: w'.Has(b', k) ==> w'.Obj(b', k) == w.Obj(b', k))
  {
  }

  lemma SyncKeepsInv(c: Config, w: World, b: string)
    requires Inv(c, w) && b in w.dbs
    ensures Inv(c, w.Synced(b)) && SameContents(w, w.Synced(b), {})
  {
    FilesFrame(c, w, w.files);
    var w' := w.Synced(b);
    RemoteAfterSync(w, b);
    assert forall b', u, n :: w'.HasPart(b', u, n) <==> w.HasPart(b', u, n);
    assert forall b', u, n :: w'.HasPart(b', u, n) ==> w'.PartOf(b', u, n) == w.PartOf(b', u, n);
  }

  /** Deleting a file no local table needs, right after this bucket was synced. */
  lemma DropRecoverable(c: Config, w: World, b: string, p: string)
    requires Inv(c, w) && Recoverable(c, w)
    requires b in w.dbs && b in w.remote && w.remote[b] == w.dbs[b]
    requires StoragePath(c.base, c.sha, p) && !Needed(w, p)
    requires !StaleElsewhere(w, b, p)
    ensures Recoverable(c, w.(files := RemoveTree(w.files, p)))
  {
    forall b', k, q | b' in w.remote && k in w.remote[b'].objects && Needs(w.remote[b'].objects[k], q)
      ensures AgreeOn(w.files, RemoveTree(w.files, p), q)
    {
      var o := w.remote[b'].objects[k];
      assert w.RemoteHas(b', k) && w.RemoteObj(b', k) == o && WellStored(c, w.files, DiskOf(w).remote[b'].objects[k]);
      NeedsStoragePath(c, w.files, o, q);
      if Under(p, q) { NothingBelow(c.base, c.sha, p, q); }
      assert forall k' :: w.Has(b', k') ==> !Needs(w.Obj(b', k'), p);
      assert b' == b ==> w.Has(b, k) && w.Obj(b, k) == o;
    }
    ReadableFrame(c, DiskOf(w), RemoveTree(w.files, p));
    SameRecords(w, w.(files := RemoveTree(w.files, p)));
  }

  /** Exactly when deleting an unneeded file leaves every snapshot readable. */
  lemma DropKeepsReadableIff(c: Config, w: World, b: string, p: string)
    requires Inv(c, w) && Recoverable(c, w)
    requires b in w.dbs && b in w.remote && w.remote[b] == w.dbs[b]
    requires StoragePath(c.base, c.sha, p) && !Needed(w, p)
    ensures Readable(c, Disk(RemoveTree(w.files, p), w.remote)) <==> !StaleElsewhere(w, b, p)
  {
    var files' := RemoveTree(w.files, p);
    if !StaleElsewhere(w, b, p) {
      DropRecoverable(c, w, b, p);
      assert DiskOf(w.(files := files')) == Disk(files', w.remote);
    } else {
      var b', k :| b' != b && w.RemoteHas(b', k) && Needs(w.RemoteObj(b', k), p);
      var d := Disk(files', w.remote);
      assert b' in d.remote && k in d.remote[b'].objects && d.remote[b'].objects[k] == w.RemoteObj(b', k);
    }
  }

  /** With one bucket on the location there is no other snapshot to go stale. */
  lemma OneBucketNeverStale(w: World, b: string, p: string)
    requires w.dbs.Keys == {b} && w.remote.Keys <= {b}
    ensures !StaleElsewhere(w, b, p)
  {
  }

  /** Bucket "b" held these bytes, deleted them, and failed to upload its metadata. */
  function OutOfStep(c: Config, k: string, data: Bytes): World
    requires |c.sha(data)| >= 2
  {
    var o := Object(c.BlobPath(data), |data|, c.ETag(data), "", []);
    World(map["a" := EMPTY_TABLES, "b" := EMPTY_TABLES], map[c.BlobPath(data) := data],
          map["a" := EMPTY_TABLES, "b" := EMPTY_TABLES.WithObject(k, o)])
  }

  lemma OutOfStepInOrder(c: Config, k: string, data: Bytes)
    requires c.Valid() && data in c.bodies
    ensures Inv(c, OutOfStep(c, k, data)) && Recoverable(c, OutOfStep(c, k, data))
  {
    var w := OutOfStep(c, k, data);
    forall x: Bytes | x in c.bodies && c.BlobPath(x) in w.files ensures w.files[c.BlobPath(x)] == x {
      BlobPathInjective(c, x, data);
    }
    assert forall b, k' :: !w.Has(b, k');
    assert forall b, u :: !w.Live(b, u);
    assert forall b, u, n :: !w.HasPart(b, u, n);
  }

  /**
   Two buckets can fall out of step: when the last local reference to the blob goes with
   a delete in bucket "a", so does the blob, and the snapshot of "b" has lost its data.
   */
  lemma OutdatedSnapshotLosesData(c: Config, k: string, data: Bytes)
    requires c.Valid() && data in c.bodies
    ensures
      var w := OutOfStep(c, k, data);
      !Needed(w, c.BlobPath(data)) && !Readable(c, Disk(RemoveTree(w.files, c.BlobPath(data)), w.remote))
  {
    hide Inv, Recoverable, Readable;
    var w := OutOfStep(c, k, data);
    var p := c.BlobPath(data);
    OutOfStepInOrder(c, k, data);
    assert StaleElsewhere(w, "a", p) by {
      assert w.RemoteHas("b", k) && Needs(w.RemoteObj("b", k), p);
    }
    assert p == DataPath(c.base, c.sha(data));
    DropKeepsReadableIff(c, w, "a", p);
  }
}
