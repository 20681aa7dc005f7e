/** The multipart upload life cycle: Create, UploadPart, Complete, Abort. */
module Multipart {
  import opened GoStrings
  import opened Collections
  import opened Numbers
  import opened Wrappers
  import opened Layout
  import opened BucketTables
  import opened StoreModel
  import opened StoreSteps
  import opened CrashModel
  import opened StoreCore

  datatype CompletePart = CompletePart(number: int, etag: string)

  predicate Sorted(parts: seq<CompletePart>) {
    forall i, j :: 0 <= i < j < |parts| ==> parts[i].number <= parts[j].number
  }

  function Insert(p: CompletePart, parts: seq<CompletePart>): (r: seq<CompletePart>)
    ensures multiset(r) == multiset{p} + multiset(parts)
  {
    if parts == [] || p.number <= parts[0].number then [p] + parts
    else
      assert parts == [parts[0]] + parts[1..];
      [parts[0]] + Insert(p, parts[1..])
  }

  /** sort.Slice by part number. */
  function SortParts(parts: seq<CompletePart>): (r: seq<CompletePart>)
    ensures multiset(r) == multiset(parts)
    ensures |r| == |parts|
  {
    if parts == [] then []
    else
      assert parts == [parts[0]] + parts[1..];
      var r := Insert(parts[0], SortParts(parts[1..]));
      assert |multiset(r)| == |r| && |multiset(parts)| == |parts|;
      r
  }

  lemma {:induction false} InsertSorted(p: CompletePart, parts: seq<CompletePart>)
    requires Sorted(parts)
    ensures Sorted(Insert(p, parts))
  {
    if parts != [] && p.number > parts[0].number {
      InsertSorted(p, parts[1..]);
      var r := Insert(p, parts[1..]);
      forall i | 0 <= i < |r| ensures parts[0].number <= r[i].number {
        assert r[i] in multiset(r);
        assert r[i] == p || r[i] in parts[1..];
      }
    }
  }

  lemma {:induction false} SortPartsSorted(parts: seq<CompletePart>)
    ensures Sorted(SortParts(parts))
  {
    if parts != [] {
      SortPartsSorted(parts[1..]);
      InsertSorted(parts[0], SortParts(parts[1..]));
    }
  }

  lemma {:induction false} SortedIsFixed(parts: seq<CompletePart>)
    requires Sorted(parts)
    ensures SortParts(parts) == parts
  {
    if parts != [] {
      SortedIsFixed(parts[1..]);
      assert parts == [parts[0]] + parts[1..];
    }
  }

  /** The manifest of the listed parts, or the first complaint about them. */
  function Manifest(t: Tables, u: string, parts: seq<CompletePart>): (r: Result<seq<Chunk>, Error>)
    ensures r.Err? ==> r.error == PartNotFound || r.error == ETagMismatch
  {
    if parts == [] then Ok([])
    else
      var before := Manifest(t, u, parts[..|parts| - 1]);
      var p := parts[|parts| - 1];
      if before.Err? then before
      else if (u, p.number) !in t.parts then Err(PartNotFound)
      else if p.etag != t.parts[(u, p.number)].etag then Err(ETagMismatch)
      else Ok(before.value + [ChunkFrom(p.number, t.parts[(u, p.number)])])
  }

  lemma {:induction false} ManifestFromParts(t: Tables, u: string, parts: seq<CompletePart>)
    requires Manifest(t, u, parts).Ok?
    ensures var cs := Manifest(t, u, parts).value;
      && |cs| == |parts|
      && forall i :: 0 <= i < |cs| ==>
        cs[i].part == parts[i].number && (u, cs[i].part) in t.parts
        && t.parts[(u, cs[i].part)].etag == parts[i].etag
        && cs[i] == ChunkFrom(cs[i].part, t.parts[(u, cs[i].part)])
  {
    if parts != [] {
      ManifestFromParts(t, u, parts[..|parts| - 1]);
    }
  }

  /** A complaint about a first run of parts is the complaint about the whole list. */
  lemma EmptyManifest(t: Tables, u: string, parts: seq<CompletePart>)
    requires parts == []
    ensures Manifest(t, u, parts) == Ok([]) && TotalSize([]) == 0
  {
  }

  /** What one more part makes of a manifest. */
  lemma PartListed(t: Tables, u: string, parts: seq<CompletePart>, i: nat, chunks: seq<Chunk>)
    requires i < |parts| && Manifest(t, u, parts[..i]) == Ok(chunks)
    ensures var key := (u, parts[i].number);
      && Manifest(t, u, parts[..i + 1]) ==
        (if key !in t.parts then Err(PartNotFound)
         else if parts[i].etag != t.parts[key].etag then Err(ETagMismatch)
         else Ok(chunks + [ChunkFrom(parts[i].number, t.parts[key])]))
      && (key in t.parts ==>
        TotalSize(chunks + [ChunkFrom(parts[i].number, t.parts[key])]) == TotalSize(chunks) + t.parts[key].size)
  {
    assert parts[..i + 1][..i] == parts[..i];
    if (u, parts[i].number) in t.parts {
      var chunk := ChunkFrom(parts[i].number, t.parts[(u, parts[i].number)]);
      assert (chunks + [chunk])[..|chunks|] == chunks;
    }
  }

  lemma {:induction false} ManifestErrStays(t: Tables, u: string, parts: seq<CompletePart>, i: nat)
    requires i <= |parts| && Manifest(t, u, parts[..i]).Err?
    ensures Manifest(t, u, parts) == Manifest(t, u, parts[..i])
    decreases |parts| - i
  {
    if i < |parts| {
      assert parts[..i + 1][..i] == parts[..i];
      ManifestErrStays(t, u, parts, i + 1);
    } else {
      assert parts[..i] == parts;
    }
  }

  function RawDigests(c: Config, cs: seq<Chunk>): Bytes {
    if cs == [] then [] else RawDigests(c, cs[..|cs| - 1]) + c.unhex(cs[|cs| - 1].md5)
  }

  function MultipartETag(c: Config, cs: seq<Chunk>): string {
    "\"" + c.md5(RawDigests(c, cs)) + "-" + Itoa(|cs|) + "\""
  }

  function CompletedObject(c: Config, up: Upload, cs: seq<Chunk>): Object {
    Object("", TotalSize(cs), MultipartETag(c, cs),
           if up.contentType == "" then "application/octet-stream" else up.contentType, cs)
  }

  /** The object a completion request asks for, before its manifest is written. */
  function Draft(c: Config, t: Tables, u: string, parts: seq<CompletePart>): (r: Result<Object, Error>)
    ensures r.Err? ==> r.error in {UploadNotFound, PartNotFound, ETagMismatch}
    ensures r.Ok? ==> PartOrdered(r.value.chunks)
  {
    if u !in t.uploads then Err(UploadNotFound)
    else
      var sorted := SortParts(parts);
      var m := Manifest(t, u, sorted);
      if m.Err? then Err(m.error)
      else
        SortPartsSorted(parts);
        ManifestFromParts(t, u, sorted);
        Ok(CompletedObject(c, t.uploads[u], m.value))
  }

  /** What a completion request means to the tables of its bucket. */
  function Completion(c: Config, t: Tables, u: string, parts: seq<CompletePart>): (r: Result<Object, Error>)
    ensures r.Err? ==> r.error in {UploadNotFound, PartNotFound, ETagMismatch, DuplicatePart}
  {
    var draft := Draft(c, t, u, parts);
    if draft.Ok? && !DistinctParts(draft.value.chunks) then Err(DuplicatePart) else draft
  }

  lemma CompletionManifest(c: Config, w: World, b: string, u: string, parts: seq<CompletePart>)
    requires b in w.dbs && Completion(c, w.dbs[b], u, parts).Ok?
    ensures var o := Completion(c, w.dbs[b], u, parts).value;
      && w.Live(b, u) && ManifestOf(w, b, u, o.chunks)
      && |o.chunks| == |parts| && o.size == TotalSize(o.chunks) && o.hashPath == ""
  {
    ManifestFromParts(w.dbs[b], u, SortParts(parts));
  }

  lemma CompletionStep(c: Config, w: World, b: string, k: string, u: string, parts: seq<CompletePart>)
    requires Inv(c, w) && b in w.dbs && Completion(c, w.dbs[b], u, parts).Ok? && parts != []
    ensures
      var o := Completion(c, w.dbs[b], u, parts).value;
      var w' := AfterCompletion(w, b, k, u, o);
      && Inv(c, w')
      && (Recoverable(c, w) ==> Recoverable(c, w'))
      && Concat(w.files, o.chunks).Some?
      && Updated(w, w', b, k, Contents(Concat(w.files, o.chunks).value), {u})
  {
    var o := Completion(c, w.dbs[b], u, parts).value;
    CompletionManifest(c, w, b, u, parts);
    UploadCompleted(c, w, b, u, k, o);
    if Recoverable(c, w) { CompletionRecoverable(c, w, b, u, k, o); }
  }

  class MultipartService {
    const core: Core

    constructor (core: Core)
      ensures this.core == core
    {
      this.core := core;
    }

    /** `id` is the random UUID the service draws. */
    method Create(b: string, k: string, contentType: string, id: string) returns (r: Result<string, Error>)
      requires core.Valid() && Fresh(core.c, core.World(), id)
      modifies core.Repr()
      ensures core.Valid() && SameContents(old(core.World()), core.World(), {})
      ensures old(core.CrashSafe()) ==> core.CrashSafe()
      ensures core.dav.faults >= old(core.dav.faults)
      ensures b !in core.dbs ==> r == Err(BucketNotFound)
      ensures b in core.dbs && !old(core.Open(b)) ==> r == Err(Unavailable)
      ensures b in core.dbs && old(core.Open(b)) ==>
        r == Ok(id) || (r == Err(SyncFailed) && core.dav.faults == old(core.dav.faults) + 1)
      ensures r.Ok? ==> core.dav.faults == old(core.dav.faults) && core.Open(b)
      ensures core.World() ==
        if r.Ok? || r.error == SyncFailed then
          var w := old(core.World());
          var w' := w.WithDb(b, w.dbs[b].WithUpload(id, Upload(k, contentType)));
          if r.Ok? then w'.Synced(b) else w'
        else old(core.World())
      ensures core.usage == old(core.usage)
    {
      hide Core.World, Inv, Recoverable, SameContents;
      ghost var w := core.World();
      SameReflexive(w);
      if b !in core.dbs { return Err(BucketNotFound); }
      var open := core.CheckWrite(b);
      if !open { return Err(Unavailable); }
      core.RecordUpload(b, id, Upload(k, contentType));
      UploadCreated(core.c, w, b, id, Upload(k, contentType));
      if Recoverable(core.c, w) { FreshUploadRecoverable(core.c, w, b, id, Upload(k, contentType)); }
      ghost var w1 := core.World();
      var ok := SyncOrClose(b, true);
      SameTransitive(w, {}, w1, {}, core.World(), {});
      return if ok then Ok(id) else Err(SyncFailed);
    }

    /**
     The metadata upload every write ends with; failing it closes the bucket.  `sound`
     says whether the tables are in order, which only an empty completion upsets.
     */
    method SyncOrClose(b: string, ghost sound: bool) returns (ok: bool)
      requires core.Distinct() && b in core.dbs && (sound ==> core.Valid())
      modifies core.dav, core.gate
      ensures core.World() == if ok then old(core.World()).Synced(b) else old(core.World())
      ensures core.dav.faults == old(core.dav.faults) + if ok then 0 else 1
      ensures sound ==> core.Valid() && SameContents(old(core.World()), core.World(), {})
      ensures sound && old(core.CrashSafe()) ==> core.CrashSafe()
      ensures ok ==> forall b' :: core.Open(b') == old(core.Open(b'))
      ensures !ok && core.gated ==> !core.Open(b)
    {
      hide Core.World, Inv, Recoverable, SameContents;
      ghost var w := core.World();
      SameReflexive(w);
      ok := core.SyncBucket(b);
      if sound {
        SyncKeepsInv(core.c, w, b);
        if Recoverable(core.c, w) { SyncRecoverable(core.c, w, b); }
      }
      if !ok { core.CloseGate(b); }
    }

    /** The declared size is not looked at: what arrives is stored and counted. */
    method UploadPart(b: string, k: string, u: string, n: int, body: Bytes) returns (r: Result<string, Error>)
      requires core.Valid()
      modifies core.Repr()
      ensures core.dav.faults >= old(core.dav.faults)
      ensures core.Distinct()
      ensures r != Err(TransferFailed) || !old(core.World()).HasPart(b, u, n) ==>
        core.Valid() && SameContents(old(core.World()), core.World(), {u})
      ensures old(core.CrashSafe()) ==> core.CrashSafe()
      ensures b !in core.dbs ==> r == Err(BucketNotFound)
      ensures b in core.dbs && !old(core.Open(b)) ==> r == Err(Unavailable)
      ensures b in core.dbs && old(core.Open(b)) && !old(core.World()).Live(b, u) ==> r == Err(UploadNotFound)
      ensures b in core.dbs && old(core.Open(b)) && old(core.World()).Live(b, u) ==>
        || r == Ok(core.c.ETag(body))
        || (r in {Err(SyncFailed), Err(TransferFailed)} && core.dav.faults > old(core.dav.faults))
      ensures r.Ok? ==> core.dav.faults == old(core.dav.faults) && core.Open(b)
      ensures r.Ok? || r.error == SyncFailed ==>
        var w' := AfterPart(core.c, old(core.World()), b, u, n, body);
        core.World() == if r.Ok? then w'.Synced(b) else w'
      ensures r == Err(TransferFailed) ==>
        core.World() == old(core.World())
        || core.World() == old(core.World()).(files := RemoveTree(old(core.World()).files, PartPath(core.c.base, u, n)))
      ensures r in {Err(BucketNotFound), Err(Unavailable), Err(UploadNotFound)} ==> core.World() == old(core.World())
      ensures core.usage == old(core.usage)
    {
      hide Core.World, Inv, Recoverable, SameContents;
      ghost var w := core.World();
      SameReflexive(w);
      if b !in core.dbs { return Err(BucketNotFound); }
      var open := core.CheckWrite(b);
      if !open { return Err(Unavailable); }
      var t := core.TablesOf(b);
      if u !in t.uploads { return Err(UploadNotFound); }
      var made := core.MakeDir(PartsDir(core.c.base) + u);
      if !made { return Err(TransferFailed); }
      var path := PartPath(core.c.base, u, n);
      var sent := core.PutFile(path, body);
      PartSent(core.c, w, b, u, n, body);
      if !sent {
        var dropped := core.DropTree(path);
        PartDropped(core.c, w, b, u, n);
        return Err(TransferFailed);
      }
      ghost var w1 := core.World();
      var part := Part(path, |body|, core.c.ETag(body));
      core.RecordPart(b, u, n, part);
      PartWritten(core.c, w, b, u, n, body);
      assert core.World() == AfterPart(core.c, w, b, u, n, body);
      if Recoverable(core.c, w1) { PartRecordRecoverable(core.c, w1, b, u, n, part); }
      ghost var w2 := core.World();
      var ok := SyncOrClose(b, true);
      SameTransitive(w, {u}, w2, {}, core.World(), {u});
      return if ok then Ok(part.etag) else Err(SyncFailed);
    }

    /** Validates the listed parts against the uploaded ones and builds the manifest. */
    method BuildObject(t: Tables, u: string, parts: seq<CompletePart>) returns (r: Result<Object, Error>)
      ensures r == Draft(core.c, t, u, parts)
    {
      hide SortParts, MultipartETag, Manifest, TotalSize, ChunkFrom;
      if u !in t.uploads { return Err(UploadNotFound); }
      var sorted := SortParts(parts);
      var chunks: seq<Chunk> := [];
      var total := 0;
      EmptyManifest(t, u, sorted[..0]);
      for i := 0 to |sorted|
        invariant Manifest(t, u, sorted[..i]) == Ok(chunks)
        invariant total == TotalSize(chunks)
      {
        var p := sorted[i];
        PartListed(t, u, sorted, i, chunks);
        if (u, p.number) !in t.parts {
          ManifestErrStays(t, u, sorted, i + 1);
          return Err(PartNotFound);
        }
        var stored := t.parts[(u, p.number)];
        if p.etag != stored.etag {
          ManifestErrStays(t, u, sorted, i + 1);
          return Err(ETagMismatch);
        }
        var chunk := ChunkFrom(p.number, stored);
        chunks := chunks + [chunk];
        total := total + stored.size;
      }
      assert sorted[..|sorted|] == sorted;
      var contentType := t.uploads[u].contentType;
      if contentType == "" { contentType := "application/octet-stream"; }
      return Ok(Object("", total, MultipartETag(core.c, chunks), contentType, chunks));
    }

    /** `parts` may come in any order, as the client listed them. */
    method Complete(b: string, k: string, u: string, parts: seq<CompletePart>) returns (r: Result<Object, Error>)
      requires core.Valid()
      modifies core.Repr()
      ensures r.Ok? ==> core.Open(b)
      ensures core.dav.faults >= old(core.dav.faults)
      ensures core.Distinct()
      ensures b !in core.dbs ==> r == Err(BucketNotFound)
      ensures b in core.dbs && !old(core.Open(b)) ==> r == Err(Unavailable)
      ensures b in core.dbs && old(core.Open(b)) ==>
        var meant := Completion(core.c, old(core.World()).dbs[b], u, parts);
        if meant.Err? then r == Err(meant.error)
        else r == Ok(meant.value) || (r == Err(SyncFailed) && core.dav.faults == old(core.dav.faults) + 1)
      ensures !Took(r) ==> core.World() == old(core.World()) && core.dav.faults == old(core.dav.faults)
      ensures Took(r) ==>
        var w := old(core.World());
        var w' := AfterCompletion(w, b, k, u, Completion(core.c, w.dbs[b], u, parts).value);
        core.World() == if r.Ok? then w'.Synced(b) else w'
      ensures parts != [] || !Took(r) ==> core.Valid() && (old(core.CrashSafe()) ==> core.CrashSafe())
      ensures Took(r) && parts != [] ==>
        var w := old(core.World());
        var o := Completion(core.c, w.dbs[b], u, parts).value;
        && Concat(w.files, o.chunks).Some?
        && Updated(w, core.World(), b, k, Contents(Concat(w.files, o.chunks).value), {u})
      ensures core.usage == old(core.usage) + if r.Ok? then [Delta(b, r.value.size, 1)] else []
    {
      hide Core.World, Inv, Recoverable, SameContents, Updated, Completion, Draft, Concat, AfterCompletion;
      hide DistinctParts, PartOrdered;
      ghost var w := core.World();
      if b !in core.dbs { return Err(BucketNotFound); }
      var open := core.CheckWrite(b);
      if !open { return Err(Unavailable); }
      var t := core.TablesOf(b);
      var draft := BuildObject(t, u, parts);
      CompletionOfDraft(core.c, t, u, parts);
      if draft.Err? { return Err(draft.error); }
      r := Install(b, k, u, parts, draft.value);
    }

    /** Writes the completed object in place of its upload, and publishes the tables. */
    method Install(b: string, k: string, u: string, ghost parts: seq<CompletePart>, o: Object)
        returns (r: Result<Object, Error>)
      requires core.Valid() && b in core.dbs && Draft(core.c, core.World().dbs[b], u, parts) == Ok(o)
      modifies core, core.dav, core.gate, core.dbs[b]
      ensures r.Ok? ==> core.Open(b) == old(core.Open(b))
      ensures core.Distinct()
      ensures DistinctParts(o.chunks) ==> r == Ok(o) || r == Err(SyncFailed)
      ensures core.dav.faults == old(core.dav.faults) + if r == Err(SyncFailed) then 1 else 0
      ensures !DistinctParts(o.chunks) ==> r == Err(DuplicatePart) && core.World() == old(core.World())
      ensures DistinctParts(o.chunks) ==>
        var w' := AfterCompletion(old(core.World()), b, k, u, o);
        core.World() == if r.Ok? then w'.Synced(b) else w'
      ensures parts != [] || !DistinctParts(o.chunks) ==> core.Valid() && (old(core.CrashSafe()) ==> core.CrashSafe())
      ensures DistinctParts(o.chunks) && parts != [] ==>
        && Concat(old(core.World()).files, o.chunks).Some?
        && Updated(old(core.World()), core.World(), b, k,
                   Contents(Concat(old(core.World()).files, o.chunks).value), {u})
      ensures core.usage == old(core.usage) + if r.Ok? then [Delta(b, o.size, 1)] else []
    {
      hide Core.World, Inv, Recoverable, SameContents, Updated, Completion, Draft, Concat, AfterCompletion;
      hide DistinctParts, PartOrdered;
      ghost var w := core.World();
      CompletionOfDraft(core.c, w.dbs[b], u, parts);
      var fits := core.RecordCompletion(b, u, k, o);
      if !fits { return Err(DuplicatePart); }
      ghost var w1 := core.World();
      if parts != [] { CompletionStep(core.c, w, b, k, u, parts); }
      var ok := SyncOrClose(b, parts != []);
      if parts != [] {
        SameReflexive(w);
        UpdatedThrough(w, {}, w, {u}, w1, {}, core.World(), b, k, Contents(Concat(w.files, o.chunks).value), {u});
      }
      if !ok { return Err(SyncFailed); }
      core.usage := core.usage + [Delta(b, o.size, 1)];
      return Ok(o);
    }

    /** Aborting: part files first, each as best it can, then the records. */
    method Abort(b: string, u: string) returns (r: Result<(), Error>)
      requires core.Valid()
      modifies core.Repr()
      ensures forall p :: p in core.World().files ==> p in old(core.World()).files
      ensures core.dav.faults >= old(core.dav.faults)
      ensures core.Valid() && SameContents(old(core.World()), core.World(), {u})
      ensures old(core.CrashSafe()) ==> core.CrashSafe()
      ensures b !in core.dbs ==> r == Err(BucketNotFound)
      ensures b in core.dbs && !old(core.Open(b)) ==> r == Err(Unavailable)
      ensures b in core.dbs && old(core.Open(b)) && !old(core.World()).Live(b, u) ==> r == Err(UploadNotFound)
      ensures b in core.dbs && old(core.Open(b)) && old(core.World()).Live(b, u) ==>
        var w := old(core.World());
        && (r == Ok(()) || r == Err(SyncFailed))
        && (r.Ok? || core.dav.faults > old(core.dav.faults))
        && core.World().dbs == w.dbs[b := w.dbs[b].WithoutUpload(u)]
        && core.World().remote == (if r.Ok? then w.remote[b := w.dbs[b].WithoutUpload(u)] else w.remote)
        && (core.dav.faults == old(core.dav.faults) ==>
          forall n :: w.HasPart(b, u, n) ==> PartPath(core.c.base, u, n) !in core.World().files)
      ensures r in {Err(BucketNotFound), Err(Unavailable), Err(UploadNotFound)} ==> core.World() == old(core.World())
      ensures core.usage == old(core.usage)
    {
      hide Core.World, Inv, Recoverable, SameContents, Needed;
      ghost var w := core.World();
      SameReflexive(w);
      if b !in core.dbs { return Err(BucketNotFound); }
      var open := core.CheckWrite(b);
      if !open { return Err(Unavailable); }
      var t := core.TablesOf(b);
      if u !in t.uploads { return Err(UploadNotFound); }
      DropParts(b, u, t);
      ghost var w1 := core.World();
      core.ForgetUpload(b, u);
      UploadAborted(core.c, w, b, u, w1.files);
      assert core.World() == w.(files := w1.files).WithDb(b, w.dbs[b].WithoutUpload(u));
      if Recoverable(core.c, w1) { ForgetRecoverable(core.c, w1, b, u); }
      ghost var w2 := core.World();
      var ok := SyncOrClose(b, true);
      SameTransitive(w, {u}, w2, {}, core.World(), {u});
      return if ok then Ok(()) else Err(SyncFailed);
    }

    method DropParts(b: string, u: string, t: Tables)
      requires core.Valid() && core.World().Live(b, u) && t == core.World().dbs[b]
      modifies core.dav
      ensures core.World() == old(core.World()).(files := core.World().files)
      ensures forall p :: p in core.World().files ==>
        p in old(core.World()).files && core.World().files[p] == old(core.World()).files[p]
      ensures forall p :: p in old(core.World()).files && UploadOf(core.c.base, p) != Some(u) ==>
        p in core.World().files
      ensures old(core.CrashSafe()) ==> core.CrashSafe()
      ensures core.dav.faults >= old(core.dav.faults)
      ensures core.dav.faults == old(core.dav.faults) ==>
        forall n :: (u, n) in t.parts ==> PartPath(core.c.base, u, n) !in core.World().files
    {
      hide Core.World, Inv, Recoverable, SameContents, Needed;
      ghost var w := core.World();
      LiveIdPlain(core.c, w, b, u);
      var left := t.PartNumbers(u);
      while left != {}
        invariant core.World() == w.(files := core.World().files)
        invariant forall p :: p in core.World().files ==> p in w.files && core.World().files[p] == w.files[p]
        invariant forall p :: p in w.files && UploadOf(core.c.base, p) != Some(u) ==> p in core.World().files
        invariant old(core.CrashSafe()) ==> core.CrashSafe()
        invariant core.dav.faults >= old(core.dav.faults)
        invariant core.dav.faults == old(core.dav.faults) ==>
          forall n :: (u, n) in t.parts && n !in left ==> PartPath(core.c.base, u, n) !in core.World().files
        invariant left <= t.PartNumbers(u)
        decreases |left|
      {
        var n := Any(left);
        assert (u, n) in t.parts && t.parts[(u, n)].path == PartPath(core.c.base, u, n) by {
          PartRecorded(core.c, w, b, u, n);
        }
        ghost var w1 := core.World();
        var ok := core.DropTree(t.parts[(u, n)].path);
        TreeOfPart(core.c, w1, b, u, n);
        left := left - {n};
      }
    }
  }

  lemma LiveIdPlain(c: Config, w: World, b: string, u: string)
    requires Inv(c, w) && w.Live(b, u)
    ensures '/' !in u
  {
  }

  lemma PartRecorded(c: Config, w: World, b: string, u: string, n: int)
    requires Inv(c, w) && b in w.dbs && n in w.dbs[b].PartNumbers(u)
    ensures (u, n) in w.dbs[b].parts && w.dbs[b].parts[(u, n)].path == PartPath(c.base, u, n)
  {
    assert w.HasPart(b, u, n) && w.PartOf(b, u, n) == w.dbs[b].parts[(u, n)];
  }

  lemma TreeOfPart(c: Config, w: World, b: string, u: string, n: int)
    requires w.Live(b, u) && '/' !in u
    ensures forall p :: UploadOf(c.base, p) != Some(u) ==> !Under(PartPath(c.base, u, n), p)
    ensures Recoverable(c, w) ==> Recoverable(c, w.(files := RemoveTree(w.files, PartPath(c.base, u, n))))
  {
    forall p | Under(PartPath(c.base, u, n), p) ensures UploadOf(c.base, p) == Some(u) {
      UnderPart(c.base, u, n, p);
    }
    if Recoverable(c, w) {
      PartFilesRecoverable(c, w, b, u, RemoveTree(w.files, PartPath(c.base, u, n)));
    }
  }

  lemma ForgetRecoverable(c: Config, w: World, b: string, u: string)
    requires Recoverable(c, w) && b in w.dbs
    ensures Recoverable(c, w.WithDb(b, w.dbs[b].WithoutUpload(u)))
  {
    var w' := w.WithDb(b, w.dbs[b].WithoutUpload(u));
    UploadForgotten(w, w', b, u);
    assert forall b', k :: w'.Has(b', k) <==> w.Has(b', k);
    assert forall b', k :: w'.Has(b', k) ==> w'.Obj(b', k) == w.Obj(b', k);
    LocalStepRecoverable(c, w, w');
  }

  lemma CompletionOfDraft(c: Config, t: Tables, u: string, parts: seq<CompletePart>)
    ensures Draft(c, t, u, parts).Err? ==> Completion(c, t, u, parts) == Draft(c, t, u, parts)
    ensures Draft(c, t, u, parts).Ok? ==>
      Completion(c, t, u, parts) ==
        if DistinctParts(Draft(c, t, u, parts).value.chunks) then Draft(c, t, u, parts) else Err(DuplicatePart)
  {
  }

  lemma PartSent(c: Config, w: World, b: string, u: string, n: int, body: Bytes)
    requires Inv(c, w) && w.Live(b, u)
    ensures Recoverable(c, w) ==> Recoverable(c, w.WithFile(PartPath(c.base, u, n), body))
  {
    if Recoverable(c, w) {
      UploadOfPartPath(c.base, u, n);
      PartFilesRecoverable(c, w, b, u, w.files[PartPath(c.base, u, n) := body]);
    }
  }

  lemma PartDropped(c: Config, w: World, b: string, u: string, n: int)
    requires Inv(c, w) && w.Live(b, u)
    ensures
      var w' := w.(files := RemoveTree(w.files, PartPath(c.base, u, n)));
      && (!w.HasPart(b, u, n) ==> Inv(c, w') && SameContents(w, w', {}) && SameContents(w, w', {u}))
      && (Recoverable(c, w) ==> Recoverable(c, w'))
  {
    var p := PartPath(c.base, u, n);
    var files' := RemoveTree(w.files, p);
    forall q | UploadOf(c.base, q) != Some(u) ensures AgreeOn(w.files, files', q) {
      if Under(p, q) { UnderPart(c.base, u, n, q); }
    }
    if Recoverable(c, w) { PartFilesRecoverable(c, w, b, u, files'); }
    if !w.HasPart(b, u, n) {
      if Needed(w, p) { UnrecordedPartUnneeded(c, w, b, u, n); }
      FileDropped(c, w, p);
    }
  }

  lemma UnrecordedPartUnneeded(c: Config, w: World, b: string, u: string, n: int)
    requires Inv(c, w) && w.Live(b, u) && !w.HasPart(b, u, n)
    ensures !Needed(w, PartPath(c.base, u, n))
  {
    var p := PartPath(c.base, u, n);
    forall b', k | w.Has(b', k) ensures !Needs(w.Obj(b', k), p) {
      LivePartsUnused(c, w, b, u, n, w.Obj(b', k));
    }
    forall b', u', m | w.HasPart(b', u', m) ensures w.PartOf(b', u', m).path != p {
      assert w.Live(b', u') && PartStored(c, w.files, u', m, w.PartOf(b', u', m));
      if PartPath(c.base, u', m) == p { PartPathInjective(c.base, u, n, u', m); }
    }
  }

  lemma PartRecordRecoverable(c: Config, w: World, b: string, u: string, n: int, part: Part)
    requires Recoverable(c, w) && b in w.dbs
    ensures Recoverable(c, w.WithDb(b, w.dbs[b].WithPart(u, n, part)))
  {
    var w' := w.WithDb(b, w.dbs[b].WithPart(u, n, part));
    assert forall b', u' :: w'.Live(b', u') <==> w.Live(b', u');
    assert forall b', k :: w'.Has(b', k) <==> w.Has(b', k);
    assert forall b', k :: w'.Has(b', k) ==> w'.Obj(b', k) == w.Obj(b', k);
    LocalStepRecoverable(c, w, w');
  }

  lemma CompletionRecoverable(c: Config, w: World, b: string, u: string, k: string, o: Object)
    requires Inv(c, w) && Recoverable(c, w) && w.Live(b, u)
    requires o.chunks != [] && o.hashPath == "" && o.size == TotalSize(o.chunks) && ManifestOf(w, b, u, o.chunks)
    ensures Recoverable(c, w.WithDb(b, w.dbs[b].WithObject(k, o).WithoutUpload(u)))
  {
    var w' := w.WithDb(b, w.dbs[b].WithObject(k, o).WithoutUpload(u));
    ManifestStored(c, w, b, u, o);
    UploadForgotten(w, w', b, u);
    assert forall b', k' :: w'.Has(b', k') ==> w'.Obj(b', k') == if (b', k') == (b, k) then o else w.Obj(b', k');
    LocalStepRecoverable(c, w, w');
  }

  /**
   A completion that lists no parts is accepted by the service and leaves an object
   without data: readers are answered exactly when at least one part was listed.
   */
  lemma CompletionReadableIff(c: Config, w: World, b: string, k: string, u: string, parts: seq<CompletePart>)
    requires Inv(c, w) && b in w.dbs && Completion(c, w.dbs[b], u, parts).Ok?
    requires "" !in w.files
    ensures
      var w' := AfterCompletion(w, b, k, u, Completion(c, w.dbs[b], u, parts).value);
      Lookup(w', b, k) != Unreadable <==> parts != []
  {
    var o := Completion(c, w.dbs[b], u, parts).value;
    var w' := AfterCompletion(w, b, k, u, o);
    CompletionManifest(c, w, b, u, parts);
    if parts != [] { CompletionStep(c, w, b, k, u, parts); }
    assert w'.Has(b, k) && w'.Obj(b, k) == o;
  }

  /**
   A failed transfer deletes whatever is at the part's path.  Recorded parts keep
   their data exactly when the part had not been uploaded before.
   */
  lemma FailedTransferHarmlessIff(c: Config, w: World, b: string, u: string, n: int)
    requires Inv(c, w) && w.Live(b, u)
    ensures Inv(c, w.(files := RemoveTree(w.files, PartPath(c.base, u, n)))) <==> !w.HasPart(b, u, n)
  {
    var w' := w.(files := RemoveTree(w.files, PartPath(c.base, u, n)));
    PartDropped(c, w, b, u, n);
    if w.HasPart(b, u, n) {
      assert w'.HasPart(b, u, n) && w'.PartOf(b, u, n) == w.PartOf(b, u, n);
      assert PartStored(c, w.files, u, n, w.PartOf(b, u, n));
      assert w'.PartOf(b, u, n).path !in w'.files;
    }
  }
}
