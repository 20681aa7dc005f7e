/**
 The state the object and multipart services share, and the single effects their
 operations are made of.
 */
module StoreCore {
  import opened GoStrings
  import opened Wrappers
  import opened Layout
  import opened BucketTables
  import opened BucketDb
  import opened StoreModel
  import opened StoreSteps
  import opened CrashModel
  import opened WebDavClient
  import opened RepairManager

  datatype Error =
    | BucketNotFound | Unavailable | TransferFailed | SyncFailed
    | ObjectNotFound | UploadNotFound | PartNotFound | ETagMismatch | DuplicatePart
    | CreateFailed(cause: Error) | PartFailed(cause: Error) | CompleteFailed(cause: Error)

  /** One row handed to the usage log. */
  datatype Delta = Delta(bucket: string, bytes: int, count: int)

  /**
   Whether a write took effect.  A metadata upload that fails is reported to the
   caller, but the local tables have been written by then.
   */
  predicate Took<T>(r: Result<T, Error>) {
    r.Ok? || r.error == SyncFailed || r.error == CompleteFailed(SyncFailed)
  }

  class Core {
    const c: Config
    const gated: bool
    const dbs: map<string, BucketDB>
    const dav: WebDav
    const gate: Manager
    var usage: seq<Delta>

    constructor (c: Config, gated: bool, dbs: map<string, BucketDB>, dav: WebDav, gate: Manager)
      ensures this.c == c && this.gated == gated && this.dbs == dbs && this.dav == dav && this.gate == gate
      ensures usage == []
    {
      this.c, this.gated, this.dbs, this.dav, this.gate := c, gated, dbs, dav, gate;
      usage := [];
    }

    ghost function Repr(): set<object> {
      {this, dav, gate} + set b | b in dbs :: dbs[b]
    }

    ghost function World(): (w: World)
      reads dav, set b | b in dbs :: dbs[b]
      ensures w.dbs.Keys == dbs.Keys
    {
      StoreModel.World(map b | b in dbs :: dbs[b].Tables(), dav.files, dav.snapshots)
    }

    /** Each bucket has its own database. */
    ghost predicate Distinct() {
      forall a, b :: a in dbs && b in dbs && a != b ==> dbs[a] != dbs[b]
    }

    ghost predicate Valid()
      reads dav, set b | b in dbs :: dbs[b]
    {
      Distinct() && Inv(c, World())
    }

    /** Every disk a crash could have left so far is readable, and the next one will be. */
    ghost predicate CrashSafe()
      reads dav, set b | b in dbs :: dbs[b]
    {
      Recoverable(c, World()) && forall d :: d in dav.history ==> Readable(c, d)
    }

    /** Whether writes to the bucket are let through. */
    ghost predicate Open(b: string)
      reads gate
    {
      gated ==> gate.StatusOf(b) == Healthy
    }

    method CheckWrite(b: string) returns (open: bool)
      ensures open <==> Open(b)
    {
      if !gated { return true; }
      var refusal := gate.CheckWrite(b);
      return refusal.None?;
    }

    /** A failed metadata upload closes the bucket for writing. */
    method CloseGate(b: string)
      modifies gate
      ensures gated ==> !Open(b)
      ensures forall b' :: b' != b ==> Open(b') == old(Open(b'))
    {
      if gated {
        var _ := gate.MarkRepairing(b, "sync bucket db");
      }
    }

    method MakeDir(p: string) returns (ok: bool)
      modifies dav`faults
      ensures World() == old(World())
      ensures dav.faults == old(dav.faults) + if ok then 0 else 1
      ensures dav.history == old(dav.history)
    {
      ok := dav.MkdirAll(p);
    }

    method ReadDir(p: string) returns (names: Option<set<string>>)
      modifies dav`faults
      ensures World() == old(World()) && dav.history == old(dav.history)
      ensures names.Some? ==> names.value == Children(World().files, p) && dav.faults == old(dav.faults)
      ensures names.None? ==> dav.faults == old(dav.faults) + 1
    {
      names := dav.ReadDir(p);
    }

    method PutFile(p: string, data: Bytes) returns (ok: bool)
      requires Distinct()
      modifies dav
      ensures World() == if ok then old(World()).WithFile(p, data) else old(World())
      ensures dav.faults == old(dav.faults) + if ok then 0 else 1
      ensures dav.history == old(dav.history) + [DiskOf(World())]
      ensures old(CrashSafe()) && Recoverable(c, World()) ==> CrashSafe()
    {
      ok := dav.Upload(p, data);
      assert World().dbs == old(World()).dbs;
    }

    method DropTree(p: string) returns (ok: bool)
      requires Distinct()
      modifies dav
      ensures World() == if ok then old(World()).(files := RemoveTree(old(World()).files, p)) else old(World())
      ensures dav.faults == old(dav.faults) + if ok then 0 else 1
      ensures dav.history == old(dav.history) + [DiskOf(World())]
      ensures old(CrashSafe()) && Recoverable(c, World()) ==> CrashSafe()
    {
      ok := dav.Delete(p);
      assert World().dbs == old(World()).dbs;
    }

    /** syncBucketDB: uploads the bucket's tables as they are now. */
    method SyncBucket(b: string) returns (ok: bool)
      requires Distinct() && b in dbs
      modifies dav
      ensures World() == if ok then old(World()).Synced(b) else old(World())
      ensures dav.faults == old(dav.faults) + if ok then 0 else 1
      ensures dav.history == old(dav.history) + [DiskOf(World())]
      ensures old(CrashSafe()) && Recoverable(c, World()) ==> CrashSafe()
    {
      var exported := dbs[b].SaveToFile();
      ok := dav.UploadSnapshot(b, exported);
      assert World().dbs == old(World()).dbs;
    }

    /** The tables of a bucket, as its database shows them. */
    method TablesOf(b: string) returns (t: Tables)
      requires b in dbs
      ensures t == World().dbs[b]
    {
      t := dbs[b].SaveToFile();
    }

    method GetObject(b: string, k: string) returns (o: Option<Object>)
      requires b in dbs
      ensures o == if World().Has(b, k) then Some(World().Obj(b, k)) else None
    {
      o := dbs[b].GetObject(k);
    }

    method CountByHashPath(b: string, p: string) returns (n: nat)
      requires b in dbs
      ensures n == |World().dbs[b].StoredIn(p)|
      ensures n > 0 <==> RefersIn(World(), b, p)
    {
      hide BucketDB.Tables;
      n := dbs[b].CountByHashPath(p);
      assert forall k :: k in World().dbs[b].StoredIn(p) <==> World().Has(b, k) && World().Obj(b, k).hashPath == p;
      if n > 0 {
        ghost var k :| k in World().dbs[b].StoredIn(p);
      }
    }

    method RecordObject(b: string, k: string, o: Object)
      requires Distinct() && b in dbs && o.chunks == []
      modifies dbs[b]
      ensures World() == old(World()).WithDb(b, old(World()).dbs[b].WithObject(k, o))
    {
      hide BucketDB.Tables;
      var ok := dbs[b].PutObject(k, o);
      assert World().dbs == old(World()).dbs[b := dbs[b].Tables()];
    }

    method RemoveObject(b: string, k: string)
      requires Distinct() && b in dbs
      modifies dbs[b]
      ensures World() == old(World()).WithDb(b, old(World()).dbs[b].WithoutObject(k))
    {
      hide BucketDB.Tables;
      var ok := dbs[b].DeleteObject(k);
      assert World().dbs == old(World()).dbs[b := dbs[b].Tables()];
    }

    method RecordUpload(b: string, u: string, up: Upload)
      requires Distinct() && b in dbs && !World().Live(b, u)
      modifies dbs[b]
      ensures World() == old(World()).WithDb(b, old(World()).dbs[b].WithUpload(u, up))
    {
      hide BucketDB.Tables;
      dbs[b].CreateMultipartUpload(u, up);
      assert World().dbs == old(World()).dbs[b := dbs[b].Tables()];
    }

    method RecordPart(b: string, u: string, n: int, part: Part)
      requires Distinct() && b in dbs
      modifies dbs[b]
      ensures World() == old(World()).WithDb(b, old(World()).dbs[b].WithPart(u, n, part))
    {
      hide BucketDB.Tables;
      dbs[b].AddPart(u, n, part);
      assert World().dbs == old(World()).dbs[b := dbs[b].Tables()];
    }

    method RecordCompletion(b: string, u: string, k: string, o: Object) returns (ok: bool)
      requires Distinct() && b in dbs && PartOrdered(o.chunks)
      modifies dbs[b]
      ensures ok <==> DistinctParts(o.chunks)
      ensures World() ==
        if ok then AfterCompletion(old(World()), b, k, u, o) else old(World())
    {
      hide BucketDB.Tables;
      ok := dbs[b].CompleteMultipartUpload(u, k, o);
      assert World().dbs == old(World()).dbs[b := dbs[b].Tables()];
    }

    method ForgetUpload(b: string, u: string)
      requires Distinct() && b in dbs
      modifies dbs[b]
      ensures World() == old(World()).WithDb(b, old(World()).dbs[b].WithoutUpload(u))
    {
      hide BucketDB.Tables;
      dbs[b].AbortMultipartUpload(u);
      assert World().dbs == old(World()).dbs[b := dbs[b].Tables()];
    }
  }
}
