/** Put, Get, Head and Delete of objects. */
module ObjectStore {
  import opened GoStrings
  import opened Collections
  import opened Wrappers
  import opened Layout
  import opened BucketTables
  import opened StoreModel
  import opened StoreSteps
  import opened CrashModel
  import opened StoreCore
  import opened Multipart
  import opened Listing
  import BucketDb

  /** For a blob, being shared is being needed. */
  lemma BlobNeededIff(c: Config, w: World, data: Bytes)
    requires Inv(c, w)
    ensures Needed(w, c.BlobPath(data)) <==> Shared(w, c.BlobPath(data))
  {
    var p := c.BlobPath(data);
    BlobOutsideParts(c, data);
    if Shared(w, p) {
      var b :| RefersIn(w, b, p);
      var k :| w.Has(b, k) && w.Obj(b, k).hashPath == p;
      assert WellStored(c, w.files, w.Obj(b, k));
      assert Needs(w.Obj(b, k), p);
    }
    if Needed(w, p) {
      if b, k :| w.Has(b, k) && Needs(w.Obj(b, k), p) {
        assert WellStored(c, w.files, w.Obj(b, k));
        NeedsWithinOwner(c, w.files, w.Obj(b, k), p);
        assert RefersIn(w, b, p);
      } else {
        var b, u, n :| w.HasPart(b, u, n) && w.PartOf(b, u, n).path == p;
        assert w.Live(b, u) && PartStored(c, w.files, u, n, w.PartOf(b, u, n));
        UploadOfPartPath(c.base, u, n);
      }
    }
  }

  // ------------------------------------------------------------ auto-chunking

  function Join(pieces: seq<Bytes>): Bytes {
    if pieces == [] then [] else Join(pieces[..|pieces| - 1]) + pieces[|pieces| - 1]
  }

  ghost predicate PieceStored(c: Config, w: World, b: string, u: string, n: int, piece: Bytes) {
    && w.HasPart(b, u, n)
    && w.PartOf(b, u, n) == Part(PartPath(c.base, u, n), |piece|, c.ETag(piece))
    && PartPath(c.base, u, n) in w.files
    && w.files[PartPath(c.base, u, n)] == piece
  }

  ghost predicate AllStored(c: Config, w: World, b: string, u: string, pieces: seq<Bytes>) {
    forall j :: 0 <= j < |pieces| ==> PieceStored(c, w, b, u, j + 1, pieces[j])
  }

  /** Parts 1, 2, ... of the upload hold these pieces, and there are no further parts. */
  ghost predicate Pieces(c: Config, w: World, b: string, u: string, pieces: seq<Bytes>) {
    && w.Live(b, u)
    && AllStored(c, w, b, u, pieces)
    && (forall n :: w.HasPart(b, u, n) ==> 1 <= n <= |pieces|)
  }

  lemma PiecesStart(c: Config, w: World, b: string, u: string, body: Bytes)
    requires w.Live(b, u) && forall n :: !w.HasPart(b, u, n)
    ensures Pieces(c, w, b, u, []) && ListsPieces(c, [], []) && Join([]) == body[..0]
  {
  }

  lemma PiecesNext(c: Config, w: World, b: string, u: string, pieces: seq<Bytes>)
    requires Pieces(c, w, b, u, pieces)
    ensures w.Live(b, u) && !w.HasPart(b, u, |pieces| + 1)
  {
  }

  lemma ListGrows(c: Config, pieces: seq<Bytes>, parts: seq<CompletePart>, body: Bytes, from: nat, to: nat)
    requires from <= to <= |body| && ListsPieces(c, pieces, parts) && Join(pieces) == body[..from]
    ensures
      var piece := body[from..to];
      && ListsPieces(c, pieces + [piece], parts + [CompletePart(|pieces| + 1, c.ETag(piece))])
      && Join(pieces + [piece]) == body[..to]
  {
    hide Join;
    var piece := body[from..to];
    JoinMore(pieces, piece);
    assert body[..from] + piece == body[..to];
    var all, more := pieces + [piece], parts + [CompletePart(|pieces| + 1, c.ETag(piece))];
    forall j | 0 <= j < |all| ensures more[j] == CompletePart(j + 1, c.ETag(all[j])) {
      if j < |pieces| { assert all[j] == pieces[j] && more[j] == parts[j]; }
    }
  }

  lemma JoinMore(pieces: seq<Bytes>, piece: Bytes)
    ensures Join(pieces + [piece]) == Join(pieces) + piece
  {
    assert (pieces + [piece])[..|pieces|] == pieces;
  }

  predicate ListsPieces(c: Config, pieces: seq<Bytes>, parts: seq<CompletePart>) {
    && |parts| == |pieces|
    && forall j :: 0 <= j < |pieces| ==> parts[j] == CompletePart(j + 1, c.ETag(pieces[j]))
  }

  lemma PiecesGrow(c: Config, w: World, w': World, b: string, u: string, pieces: seq<Bytes>, piece: Bytes)
    requires '/' !in u && Pieces(c, w, b, u, pieces)
    requires w' == AfterPart(c, w, b, u, |pieces| + 1, piece).Synced(b)
    ensures Pieces(c, w', b, u, pieces + [piece])
  {
    var all := pieces + [piece];
    forall j | 0 <= j < |all| ensures PieceStored(c, w', b, u, j + 1, all[j]) {
      if j < |pieces| {
        assert PieceStored(c, w, b, u, j + 1, pieces[j]);
        if PartPath(c.base, u, j + 1) == PartPath(c.base, u, |pieces| + 1) {
          PartPathInjective(c.base, u, j + 1, u, |pieces| + 1);
        }
      }
    }
    assert forall n :: w'.HasPart(b, u, n) ==> w.HasPart(b, u, n) || n == |all|;
  }

  /** Completing the pieces in order asks for an object that reads as their concatenation. */
  lemma PiecesComplete(c: Config, w: World, b: string, u: string, pieces: seq<Bytes>, parts: seq<CompletePart>)
    requires c.Valid() && b in w.dbs && Pieces(c, w, b, u, pieces) && ListsPieces(c, pieces, parts)
    ensures Completion(c, w.dbs[b], u, parts).Ok?
    ensures Concat(w.files, Completion(c, w.dbs[b], u, parts).value.chunks) == Some(Join(pieces))
  {
    hide Concat, PieceStored, Join, PartOrdered;
    var t := w.dbs[b];
    assert Sorted(parts);
    SortedIsFixed(parts);
    PiecesManifest(c, w, b, u, pieces, parts);
    var cs := Manifest(t, u, parts).value;
    PiecesDistinct(c, t, u, pieces, parts);
    CompletionOfDraft(c, t, u, parts);
    assert Draft(c, t, u, parts) == Ok(CompletedObject(c, t.uploads[u], cs));
  }

  lemma PiecesDistinct(c: Config, t: Tables, u: string, pieces: seq<Bytes>, parts: seq<CompletePart>)
    requires ListsPieces(c, pieces, parts) && Manifest(t, u, parts).Ok?
    ensures DistinctParts(Manifest(t, u, parts).value)
  {
    hide Manifest;
    ManifestFromParts(t, u, parts);
  }

  lemma {:induction false} PiecesManifest(c: Config, w: World, b: string, u: string, pieces: seq<Bytes>,
                                          parts: seq<CompletePart>)
    requires b in w.dbs && AllStored(c, w, b, u, pieces) && ListsPieces(c, pieces, parts)
    ensures Manifest(w.dbs[b], u, parts).Ok?
    ensures Concat(w.files, Manifest(w.dbs[b], u, parts).value) == Some(Join(pieces))
  {
    if pieces != [] {
      var n := |pieces| - 1;
      PiecesManifest(c, w, b, u, pieces[..n], parts[..n]);
      assert PieceStored(c, w, b, u, n + 1, pieces[n]) && parts[n] == CompletePart(n + 1, c.ETag(pieces[n]));
      var cs := Manifest(w.dbs[b], u, parts[..n]).value;
      var last := ChunkFrom(n + 1, w.PartOf(b, u, n + 1));
      assert (cs + [last])[..|cs|] == cs;
    }
  }

  lemma FoundReadable(c: Config, w: World, b: string, k: string)
    requires Inv(c, w)
    ensures Lookup(w, b, k) == NoSuchObject <==> !w.Has(b, k)
    ensures w.Has(b, k) ==>
      ContentOf(w.files, w.Obj(b, k)).Some? && Lookup(w, b, k) == Contents(ContentOf(w.files, w.Obj(b, k)).value)
  {
    if w.Has(b, k) {
      assert WellStored(c, w.files, w.Obj(b, k));
      WellStoredReadable(c, w.files, w.Obj(b, k));
    }
  }

  class ObjectService {
    const core: Core
    const mp: MultipartService
    const autoChunk: bool
    const threshold: int
    const chunkSize: int

    constructor (core: Core, mp: MultipartService, autoChunk: bool, threshold: int, chunkSize: int)
      requires mp.core == core
      ensures this.core == core && this.mp == mp && this.autoChunk == autoChunk
      ensures this.threshold == threshold && this.chunkSize == chunkSize
    {
      this.core, this.mp, this.autoChunk, this.threshold, this.chunkSize := core, mp, autoChunk, threshold, chunkSize;
    }

    ghost predicate Wired() {
      mp.core == core
    }

    /** Whether a body is sent in parts. */
    predicate Splits(body: Bytes) {
      threshold > 0 && |body| > threshold && autoChunk
    }

    /** Downloads an object, its chunks one after the other. */
    method Get(b: string, k: string) returns (r: Result<(Object, Bytes), Error>)
      requires core.Valid()
      modifies core.dav`faults
      ensures core.Valid()
      ensures core.dav.faults >= old(core.dav.faults)
      ensures core.World() == old(core.World()) && core.dav.history == old(core.dav.history)
      ensures b !in core.dbs ==> r == Err(BucketNotFound)
      ensures b in core.dbs && Lookup(core.World(), b, k) == NoSuchObject ==> r == Err(ObjectNotFound)
      ensures b in core.dbs && Lookup(core.World(), b, k) != NoSuchObject ==>
        if core.dav.faults == old(core.dav.faults) then
          r.Ok? && r.value.0 == core.World().Obj(b, k) && Lookup(core.World(), b, k) == Contents(r.value.1)
        else r == Err(TransferFailed)
    {
      hide Inv, ContentOf, Lookup, BucketDb.BucketDB.Tables;
      ghost var w := core.World();
      FoundReadable(core.c, w, b, k);
      if b !in core.dbs { return Err(BucketNotFound); }
      var found := core.GetObject(b, k);
      if found.None? { return Err(ObjectNotFound); }
      r := Fetch(found.value);
      assert core.World() == w;
    }

    method Fetch(o: Object) returns (r: Result<(Object, Bytes), Error>)
      requires ContentOf(core.dav.files, o).Some?
      modifies core.dav`faults
      ensures core.dav.faults >= old(core.dav.faults)
      ensures
        if core.dav.faults == old(core.dav.faults) then r == Ok((o, ContentOf(core.dav.files, o).value))
        else r == Err(TransferFailed)
    {
      if o.chunks != [] {
        r := GetChunked(o);
      } else {
        var data := core.dav.Download(o.hashPath);
        return if data.Some? then Ok((o, data.value)) else Err(TransferFailed);
      }
    }

    method GetChunked(o: Object) returns (r: Result<(Object, Bytes), Error>)
      requires o.chunks != [] && Concat(core.dav.files, o.chunks).Some?
      modifies core.dav`faults
      ensures core.dav.faults >= old(core.dav.faults)
      ensures
        if core.dav.faults == old(core.dav.faults) then r == Ok((o, Concat(core.dav.files, o.chunks).value))
        else r == Err(TransferFailed)
    {
      var data: Bytes := [];
      for i := 0 to |o.chunks|
        invariant core.dav.faults == old(core.dav.faults)
        invariant Concat(core.dav.files, o.chunks[..i]) == Some(data)
      {
        assert o.chunks[..i + 1][..i] == o.chunks[..i];
        ConcatPrefixDefined(core.dav.files, o.chunks, i + 1);
        var piece := core.dav.Download(o.chunks[i].path);
        if piece.None? { return Err(TransferFailed); }
        data := data + piece.value;
      }
      assert o.chunks[..|o.chunks|] == o.chunks;
      return Ok((o, data));
    }

    /**
     Stores `body`.  `id` is the upload id drawn when the body is large enough to be
     split into parts.
     */
    method Put(b: string, k: string, contentType: string, body: Bytes, id: string) returns (r: Result<Object, Error>)
      requires Wired() && core.Valid() && Fresh(core.c, core.World(), id)
      requires !Splits(body) ==> body in core.c.bodies
      modifies core.Repr()
      ensures r != Err(ObjectNotFound) && (b in core.dbs ==> r != Err(BucketNotFound))
      ensures r.Ok? ==> core.Open(b)
      ensures core.dav.faults >= old(core.dav.faults)
      ensures core.Valid() && (old(core.CrashSafe()) ==> core.CrashSafe())
      ensures b !in core.dbs ==> r == Err(BucketNotFound)
      ensures b in core.dbs && !old(core.Open(b)) ==> r == Err(Unavailable)
      ensures b in core.dbs && old(core.Open(b)) ==> r.Ok? || core.dav.faults > old(core.dav.faults)
      ensures Took(r) ==> Updated(old(core.World()), core.World(), b, k, Contents(body), {id})
      ensures !Took(r) ==> SameContents(old(core.World()), core.World(), {id})
      ensures r.Ok? ==>
        && core.World().Has(b, k) && core.World().Obj(b, k) == r.value
        && r.value.size == |body|
        && (b in core.World().remote && core.World().remote[b] == core.World().dbs[b])
      ensures core.usage == old(core.usage) + if r.Ok? then [Delta(b, |body|, 1)] else []
      ensures Contained(core.c, old(core.World()), core.World(), id)
    {
      hide Core.World, Inv, Recoverable, SameContents, Updated, Fresh, Lookup, Contained;
      ghost var w := core.World();
      SameReflexive(w);
      ContainedFiles(core.c, w, w, id);
      if b !in core.dbs { return Err(BucketNotFound); }
      var open := core.CheckWrite(b);
      if !open { return Err(Unavailable); }
      if Splits(body) {
        r := PutChunked(b, k, contentType, body, id);
      } else {
        r := PutBlob(b, k, contentType, body);
        UpdatedWiden(w, core.World(), b, k, Contents(body), id);
      }
      if Took(r) { SizeOfStored(core.c, w, core.World(), b, k, body, id); }
    }

    /** One content-addressed file: data first, then the record, then the snapshot. */
    method PutBlob(b: string, k: string, contentType: string, body: Bytes) returns (r: Result<Object, Error>)
      requires Wired() && core.Valid() && b in core.dbs && core.Open(b) && body in core.c.bodies
      modifies core.Repr()
      ensures r.Ok? ==> core.Open(b)
      ensures core.dav.faults >= old(core.dav.faults)
      ensures core.Valid() && (old(core.CrashSafe()) ==> core.CrashSafe())
      ensures r.Ok? || ((r == Err(TransferFailed) || r == Err(SyncFailed)) && core.dav.faults > old(core.dav.faults))
      ensures Took(r) ==> Updated(old(core.World()), core.World(), b, k, Contents(body), {})
      ensures !Took(r) ==> SameContents(old(core.World()), core.World(), {})
      ensures r.Ok? ==>
        core.World().Has(b, k) && core.World().Obj(b, k) == r.value && b in core.World().remote
        && core.World().remote[b] == core.World().dbs[b]
      ensures r.Ok? ==>
        r.value == Object(core.c.BlobPath(body), |body|, core.c.ETag(body), contentType, [])
      ensures core.usage == old(core.usage) + if r.Ok? then [Delta(b, |body|, 1)] else []
      ensures forall id :: Contained(core.c, old(core.World()), core.World(), id)
    {
      hide Core.World, Inv, Recoverable, SameContents, Updated, Lookup, Contained;
      ghost var w := core.World();
      ConfigOf(core.c, w);
      var path := core.c.BlobPath(body);
      var sent := SendBlob(body);
      ghost var w1 := core.World();
      BlobContained(core.c, w, w1, body);
      if !sent { return Err(TransferFailed); }
      var o := Object(path, |body|, core.c.ETag(body), contentType, []);
      core.RecordObject(b, k, o);
      ghost var w2 := core.World();
      RecordStep(core.c, w1, b, k, o, body);
      var ok := mp.SyncOrClose(b, true);
      RecordContained(core.c, w, w1, core.World(), b, k, o);
      UpdatedThrough(w, {}, w1, {}, w2, {}, core.World(), b, k, Contents(body), {});
      if !ok { return Err(SyncFailed); }
      core.usage := core.usage + [Delta(b, |body|, 1)];
      return Ok(o);
    }

    /** The data file of a blob, under the hash of its contents. */
    method SendBlob(body: Bytes) returns (ok: bool)
      requires core.Valid() && body in core.c.bodies
      modifies core.dav
      ensures core.Valid() && (old(core.CrashSafe()) ==> core.CrashSafe())
      ensures core.World() == if ok then old(core.World()).WithFile(core.c.BlobPath(body), body) else old(core.World())
      ensures SameContents(old(core.World()), core.World(), {})
      ensures core.dav.faults == old(core.dav.faults) + if ok then 0 else 1
    {
      hide Core.World, Inv, Recoverable, SameContents;
      ghost var w := core.World();
      SameReflexive(w);
      ConfigOf(core.c, w);
      BlobSent(core.c, w, body);
      ok := core.MakeDir(DataDir(core.c.base) + core.c.sha(body)[..2]);
      if !ok { return; }
      ok := core.PutFile(core.c.BlobPath(body), body);
    }

    /** Splits the body into parts and completes them as one multipart upload. */
    method PutChunked(b: string, k: string, contentType: string, body: Bytes, id: string)
        returns (r: Result<Object, Error>)
      requires Wired() && core.Valid() && b in core.dbs && core.Open(b) && |body| > 0
      requires Fresh(core.c, core.World(), id)
      modifies core.Repr()
      ensures r.Err? ==> r.error.CreateFailed? || r.error.PartFailed? || r.error.CompleteFailed?
      ensures r.Ok? ==> core.Open(b)
      ensures core.dav.faults >= old(core.dav.faults)
      ensures core.Valid() && (old(core.CrashSafe()) ==> core.CrashSafe())
      ensures r.Ok? || core.dav.faults > old(core.dav.faults)
      ensures Took(r) ==> Updated(old(core.World()), core.World(), b, k, Contents(body), {id})
      ensures !Took(r) ==> SameContents(old(core.World()), core.World(), {id})
      ensures r.Ok? ==>
        core.World().Has(b, k) && core.World().Obj(b, k) == r.value && b in core.World().remote
        && core.World().remote[b] == core.World().dbs[b]
      ensures core.usage == old(core.usage) + if r.Ok? then [Delta(b, r.value.size, 1)] else []
      ensures Contained(core.c, old(core.World()), core.World(), id)
    {
      hide Core.World, Inv, Recoverable, SameContents, Updated, Fresh, Lookup, Pieces, Completion, Concat;
      hide ListsPieces, AfterCompletion, Contained;
      ghost var w := core.World();
      var created := mp.Create(b, k, contentType, id);
      CreateContained(core.c, w, core.World(), b, id, Upload(k, contentType));
      SameWiden(w, core.World(), id);
      if created.Err? { return Err(CreateFailed(created.error)); }
      NewUploadEmpty(core.c, w, b, id, Upload(k, contentType));
      ghost var pieces: seq<Bytes>;
      var sent, parts;
      sent, parts, pieces := SendParts(b, k, body, id, w);
      if sent.Err? { return Err(PartFailed(sent.error)); }
      ghost var w1 := core.World();
      var completed := mp.Complete(b, k, id, parts);
      ConfigOf(core.c, w);
      PiecesComplete(core.c, w1, b, id, pieces, parts);
      SameReflexive(core.World());
      ghost var w2 := core.World();
      CompleteContained(core.c, w1, w2, b, k, id, parts);
      ContainedThrough(core.c, w, w1, w2, id);
      if completed.Err? {
        assert Updated(w1, w2, b, k, Contents(body), {id});
        var _ := mp.Abort(b, id);
        AbortContained(core.c, w2, core.World(), b, id);
        ContainedThrough(core.c, w, w2, core.World(), id);
        UpdatedThrough(w, {id}, w1, {id}, w2, {id}, core.World(), b, k, Contents(body), {id});
        return Err(CompleteFailed(completed.error));
      }
      UpdatedThrough(w, {id}, w1, {id}, core.World(), {}, core.World(), b, k, Contents(body), {id});
      CompletedRecorded(w1, b, k, id, completed.value);
      return completed;
    }

    /** Uploads the pieces of the body as parts 1, 2, ...; aborts at the first failure. */
    method SendParts(b: string, k: string, body: Bytes, id: string, ghost w: World)
        returns (r: Result<(), Error>, parts: seq<CompletePart>, ghost pieces: seq<Bytes>)
      requires Wired() && core.Valid() && b in core.dbs && core.Open(b) && |body| > 0
      requires SameContents(w, core.World(), {id}) && Contained(core.c, w, core.World(), id)
      requires core.World().Live(b, id) && forall n :: !core.World().HasPart(b, id, n)
      modifies core.Repr()
      ensures core.dav.faults >= old(core.dav.faults)
      ensures core.Valid() && (old(core.CrashSafe()) ==> core.CrashSafe())
      ensures SameContents(w, core.World(), {id}) && Contained(core.c, w, core.World(), id)
      ensures core.usage == old(core.usage)
      ensures r.Ok? ==>
        && core.dav.faults == old(core.dav.faults) && core.Open(b)
        && Pieces(core.c, core.World(), b, id, pieces) && ListsPieces(core.c, pieces, parts)
        && Join(pieces) == body && parts != []
      ensures r.Err? ==> core.dav.faults > old(core.dav.faults)
    {
      hide Core.World, Core.Open, Core.CrashSafe, Inv, SameContents, Contained;
      hide Pieces, ListsPieces, Join, AfterPart, World.Live, World.HasPart, World.Synced;
      var size := if chunkSize <= 0 then 100 * 1024 * 1024 else chunkSize;
      parts, pieces := [], [];
      var partNum, remaining := 1, |body|;
      PiecesStart(core.c, core.World(), b, id, body);
      LiveIdPlain(core.c, core.World(), b, id);
      while remaining > 0
        invariant 0 <= remaining <= |body| && partNum == |pieces| + 1 == |parts| + 1
        invariant partNum == 1 ==> remaining == |body|
        invariant core.Valid() && (old(core.CrashSafe()) ==> core.CrashSafe())
        invariant SameContents(w, core.World(), {id}) && core.Open(b) && Contained(core.c, w, core.World(), id)
        invariant core.dav.faults == old(core.dav.faults) && core.usage == old(core.usage)
        invariant Pieces(core.c, core.World(), b, id, pieces) && ListsPieces(core.c, pieces, parts)
        invariant Join(pieces) == body[..|body| - remaining]
      {
        var partSize := if remaining < size then remaining else size;
        var offset := |body| - remaining;
        var piece := body[offset..offset + partSize];
        ghost var w1 := core.World();
        PiecesNext(core.c, w1, b, id, pieces);
        var sent := SendPart(b, k, id, partNum, piece, w);
        if sent.Err? { return Err(sent.error), parts, pieces; }
        PiecesGrow(core.c, w1, core.World(), b, id, pieces, piece);
        ListGrows(core.c, pieces, parts, body, offset, offset + partSize);
        parts := parts + [CompletePart(partNum, sent.value)];
        pieces := pieces + [piece];
        remaining := remaining - partSize;
        partNum := partNum + 1;
      }
      assert body[..|body|] == body;
      return Ok(()), parts, pieces;
    }

    /** Uploads one piece, or gives the upload up. */
    method SendPart(b: string, k: string, id: string, n: nat, piece: Bytes, ghost w: World)
        returns (sent: Result<string, Error>)
      requires core == mp.core && core.Valid() && b in core.dbs && core.Open(b)
      requires SameContents(w, core.World(), {id}) && Contained(core.c, w, core.World(), id)
      requires core.World().Live(b, id) && !core.World().HasPart(b, id, n) && '/' !in id
      modifies core.Repr()
      ensures core.dav.faults >= old(core.dav.faults)
      ensures core.Valid() && (old(core.CrashSafe()) ==> core.CrashSafe())
      ensures SameContents(w, core.World(), {id}) && Contained(core.c, w, core.World(), id)
      ensures core.usage == old(core.usage)
      ensures sent.Ok? ==>
        && core.dav.faults == old(core.dav.faults) && core.Open(b) && sent.value == core.c.ETag(piece)
        && core.World() == AfterPart(core.c, old(core.World()), b, id, n, piece).Synced(b)
      ensures sent.Err? ==> core.dav.faults > old(core.dav.faults)
    {
      hide Core.World, Inv, Recoverable, SameContents, AfterPart, Contained;
      ghost var w1 := core.World();
      sent := mp.UploadPart(b, k, id, n, piece);
      ghost var w2 := core.World();
      SameTransitive(w, {id}, w1, {id}, w2, {id});
      PartContained(core.c, w1, w2, b, id, n, piece);
      ContainedThrough(core.c, w, w1, w2, id);
      if sent.Err? {
        var _ := mp.Abort(b, id);
        AbortContained(core.c, w2, core.World(), b, id);
        ContainedThrough(core.c, w, w2, core.World(), id);
        SameTransitive(w, {id}, w2, {id}, core.World(), {id});
      }
    }

    /**
     Removes the record, publishes that, and only then cleans up: part files at once, a
     blob only when no object on the location is stored in it any more.
     */
    method Delete(b: string, k: string) returns (r: Result<(), Error>)
      requires Wired() && core.Valid()
      modifies core.Repr()
      ensures core.Open(b) == old(core.Open(b))
      ensures core.dav.faults >= old(core.dav.faults)
      ensures core.Valid()
      ensures b !in core.dbs ==> r == Err(BucketNotFound)
      ensures b in core.dbs && !old(core.World()).Has(b, k) ==> r == Err(ObjectNotFound)
      ensures !old(core.World()).Has(b, k) ==> core.World() == old(core.World()) && core.usage == old(core.usage)
      ensures old(core.World()).Has(b, k) ==>
        var w := old(core.World());
        && (r == Ok(()) || (r == Err(SyncFailed) && core.dav.faults > old(core.dav.faults)))
        && Updated(w, core.World(), b, k, NoSuchObject, {})
        && core.World().dbs == w.dbs[b := w.dbs[b].WithoutObject(k)]
        && core.World().remote == (if r.Ok? then w.remote[b := w.dbs[b].WithoutObject(k)] else w.remote)
        && core.usage == old(core.usage) + (if r.Ok? then [Delta(b, 0 - w.Obj(b, k).size, -1)] else [])
      ensures r.Ok? && core.dav.faults == old(core.dav.faults) ==>
        forall p :: Needs(old(core.World()).Obj(b, k), p) ==> (p in core.World().files <==> Needed(core.World(), p))
      ensures old(core.CrashSafe()) && !StaleBlob(old(core.World()), b, k) ==> core.CrashSafe()
      ensures old(core.CrashSafe()) && core.dav.faults == old(core.dav.faults) ==>
        (Readable(core.c, DiskOf(core.World())) <==> !StaleBlob(old(core.World()), b, k))
      ensures forall id :: Contained(core.c, old(core.World()), core.World(), id)
    {
      hide Core.World, Inv, Recoverable, Readable, SameContents, Updated, Lookup, Needs, Needed;
      hide StaleElsewhere, StaleBlob, Contained, Core.Open;
      ghost var w := core.World();
      NothingDone(core.c, w);
      NotStale(w, b, k);
      if b !in core.dbs { return Err(BucketNotFound); }
      var found := core.GetObject(b, k);
      if found.None? { return Err(ObjectNotFound); }
      var ok := Unpublish(b, k);
      ghost var w2 := core.World();
      DeleteContained(core.c, w, w2, b, k);
      if !ok { return Err(SyncFailed); }
      core.usage := core.usage + [Delta(b, 0 - found.value.size, -1)];
      CleanUp(b, k, found.value, w);
      DeleteContained(core.c, w, core.World(), b, k);
      SameReflexive(w);
      UpdatedThrough(w, {}, w, {}, w2, {}, core.World(), b, k, NoSuchObject, {});
      SafeReadable(core.c, core.World());
      if core.dav.faults == old(core.dav.faults) && StaleBlob(w, b, k) {
        StaleDataGone(core.c, w, core.World(), b, k);
      }
      return Ok(());
    }

    /** The record goes, and the snapshot says so. */
    method Unpublish(b: string, k: string) returns (ok: bool)
      requires core.Valid() && b in core.dbs && core.World().Has(b, k)
      modifies core.dbs[b], core.dav
      ensures core.Valid() && (old(core.CrashSafe()) ==> core.CrashSafe())
      ensures
        var w1 := old(core.World()).WithDb(b, old(core.World()).dbs[b].WithoutObject(k));
        core.World() == if ok then w1.Synced(b) else w1
      ensures Updated(old(core.World()), core.World(), b, k, NoSuchObject, {})
      ensures core.dav.faults == old(core.dav.faults) + if ok then 0 else 1
    {
      hide Core.World, Inv, Recoverable, SameContents, Updated, Lookup;
      ghost var w := core.World();
      core.RemoveObject(b, k);
      ghost var w1 := core.World();
      RemoveStep(core.c, w, b, k);
      ok := core.SyncBucket(b);
      SyncStep(core.c, w1, b);
      SameReflexive(w);
      SameReflexive(w1);
      UpdatedThrough(w, {}, w, {}, w1, {}, core.World(), b, k, NoSuchObject, {});
    }

    /** Deletes the data of an object whose record is gone, here and in the snapshot. */
    method CleanUp(b: string, k: string, o: Object, ghost w: World)
      requires core.Valid() && b in core.dbs && Inv(core.c, w) && w.Has(b, k) && w.Obj(b, k) == o
      requires core.World() == w.WithDb(b, w.dbs[b].WithoutObject(k)).Synced(b)
      modifies core.dav
      ensures core.Valid() && SameContents(old(core.World()), core.World(), {})
      ensures core.World() == old(core.World()).(files := core.World().files)
      ensures core.dav.faults >= old(core.dav.faults)
      ensures core.dav.faults == old(core.dav.faults) ==>
        forall p :: Needs(o, p) ==> (p in core.World().files <==> Needed(core.World(), p))
      ensures Recoverable(core.c, w) && old(core.CrashSafe()) && !StaleBlob(w, b, k) ==> core.CrashSafe()
      ensures forall p :: p in core.World().files ==> p in old(core.World()).files
    {
      hide Core.World, Inv, Recoverable, SameContents, Needed, StaleElsewhere, Updated;
      ghost var w2 := core.World();
      SameReflexive(w2);
      if o.chunks != [] {
        DropChunks(b, k, o, w);
        ChunksAbandoned(core.c, w, core.World(), b, k);
      } else if o.hashPath != "" {
        BlobOf(core.c, w, b, k);
        StaleBlobAfter(w, w2, b, k);
        MaybeDeleteDataFile(o.hashPath, b, w.files[o.hashPath]);
        BlobOutcome(core.c, w2, core.World(), w.files[o.hashPath]);
      } else {
        BlobOf(core.c, w, b, k);
      }
    }

    /** The part files of a manifest, whatever becomes of each deletion. */
    method DropChunks(b: string, k: string, o: Object, ghost w: World)
      requires core.Valid() && b in core.dbs && Inv(core.c, w) && w.Has(b, k) && w.Obj(b, k) == o
      requires core.World() == w.WithDb(b, w.dbs[b].WithoutObject(k)).Synced(b)
      modifies core.dav
      ensures core.Valid() && SameContents(old(core.World()), core.World(), {})
      ensures core.World() == old(core.World()).(files := core.World().files)
      ensures core.dav.faults >= old(core.dav.faults)
      ensures core.dav.faults == old(core.dav.faults) ==>
        forall j :: 0 <= j < |o.chunks| ==> o.chunks[j].path !in core.World().files
      ensures Recoverable(core.c, w) && old(core.CrashSafe()) ==> core.CrashSafe()
      ensures forall p :: p in core.World().files ==> p in old(core.World()).files
    {
      hide Core.World, Inv, Recoverable, SameContents, Needed, StaleElsewhere, Updated;
      ghost var w2 := core.World();
      SameReflexive(w2);
      for i := 0 to |o.chunks|
        invariant core.Valid() && SameContents(w2, core.World(), {})
        invariant core.World() == w2.(files := core.World().files)
        invariant core.dav.faults >= old(core.dav.faults)
        invariant forall p :: p in core.World().files ==> p in w2.files
        invariant core.dav.faults == old(core.dav.faults) ==>
          forall j :: 0 <= j < i ==> o.chunks[j].path !in core.World().files
        invariant Recoverable(core.c, w) && old(core.CrashSafe()) ==> core.CrashSafe()
      {
        ghost var w3 := core.World();
        ChunkAbandoned(core.c, w, w3, b, k, o.chunks[i].path);
        var ok := core.DropTree(o.chunks[i].path);
        DropStep(core.c, w3, b, o.chunks[i].path);
        SameTransitive(w2, {}, w3, {}, core.World(), {});
      }
    }

    /** The reference guard: this bucket first, then every other bucket on the location. */
    method ReferredAnywhere(p: string, b: string) returns (found: bool)
      requires b in core.dbs
      ensures found <==> Shared(core.World(), p)
    {
      hide Core.World, RefersIn;
      ghost var w := core.World();
      var n := core.CountByHashPath(b, p);
      if n > 0 { return true; }
      assert w.dbs.Keys == core.dbs.Keys;
      assert forall b' :: RefersIn(w, b', p) ==> b' in w.dbs.Keys by { RefersWithin(w, p); }
      var others := core.dbs.Keys - {b};
      while others != {}
        invariant others <= core.dbs.Keys
        invariant forall b' :: RefersIn(w, b', p) ==> b' in others
        invariant core.World() == w
        decreases |others|
      {
        var b' := Any(others);
        n := core.CountByHashPath(b', p);
        if n > 0 { return true; }
        others := others - {b'};
      }
      return false;
    }

    /** Deletes a blob unless some object on the location is stored in it. */
    method MaybeDeleteDataFile(p: string, b: string, ghost data: Bytes)
      requires core.Valid() && b in core.dbs && core.c.Valid() && p == core.c.BlobPath(data)
      requires b in core.World().remote && core.World().remote[b] == core.World().dbs[b]
      modifies core.dav
      ensures core.Valid() && SameContents(old(core.World()), core.World(), {})
      ensures core.World() == old(core.World()).(files := core.World().files)
      ensures Shared(old(core.World()), p) ==>
        core.World() == old(core.World()) && core.dav.faults == old(core.dav.faults)
      ensures core.dav.faults >= old(core.dav.faults)
      ensures !Shared(old(core.World()), p) && core.dav.faults == old(core.dav.faults) ==> p !in core.World().files
      ensures old(core.CrashSafe()) && (Shared(old(core.World()), p) || !StaleElsewhere(old(core.World()), b, p)) ==>
        core.CrashSafe()
      ensures forall q :: q in core.World().files ==> q in old(core.World()).files
    {
      hide Core.World, Inv, Recoverable, SameContents, Needed, StaleElsewhere, Shared;
      ghost var w := core.World();
      SameReflexive(w);
      var found := ReferredAnywhere(p, b);
      if found { return; }
      BlobNeededIff(core.c, w, data);
      var ok := core.DropTree(p);
      DropStep(core.c, w, b, p);
    }

    /**
     One page of the bucket's keys and, with a delimiter, of the groups they form, with
     the rows of the keys.  `startAfter` is what the continuation token holds.
     */
    method List(b: string, prefix: string, delimiter: string, startAfter: string, maxKeys: int)
        returns (r: Result<(ListResult, seq<BucketDb.ObjectRow>), Error>)
      requires core.Valid() && (b in core.dbs ==> "" !in core.World().dbs[b].objects)
      ensures b !in core.dbs ==> r == Err(BucketNotFound)
      ensures b in core.dbs ==>
        && r.Ok? && r.value.0 == Listed(core.World().dbs[b].objects.Keys, prefix, delimiter, startAfter, maxKeys)
        && |r.value.1| == |r.value.0.objects|
        && forall i :: 0 <= i < |r.value.1| ==>
          core.World().Has(b, r.value.0.objects[i]) && r.value.1[i] == RowOf(core.World().Obj(b, r.value.0.objects[i]))
    {
      hide Core.World, Inv, Page, KeysIn, GroupsIn, Rows;
      if b !in core.dbs { return Err(BucketNotFound); }
      var t := core.TablesOf(b);
      var table := t.objects.Keys;
      var fetchMax := if maxKeys <= 0 then 1000 else maxKeys;
      var objects, commonPrefixes := ListObjects(table, prefix, delimiter, startAfter, fetchMax + 1);
      CountParts(Page(table, prefix, delimiter, startAfter, fetchMax + 1));
      PageBound(table, prefix, delimiter, startAfter, fetchMax + 1);
      var page := Trim(objects, commonPrefixes, fetchMax);
      PageKeysListed(table, prefix, delimiter, startAfter, maxKeys);
      var rows := seq(|page.objects|, i requires 0 <= i < |page.objects| =>
        assert page.objects[i] in table; RowOf(t.objects[page.objects[i]]));
      return Ok((page, rows));
    }

    method Head(b: string, k: string) returns (r: Result<Object, Error>)
      requires core.Valid()
      ensures b !in core.dbs ==> r == Err(BucketNotFound)
      ensures b in core.dbs ==>
        r == if core.World().Has(b, k) then Ok(core.World().Obj(b, k)) else Err(ObjectNotFound)
    {
      if b !in core.dbs { return Err(BucketNotFound); }
      var found := core.dbs[b].GetObject(k);
      return if found.Some? then Ok(found.value) else Err(ObjectNotFound);
    }
  }

  /** The row of an object as a listing shows it, without its manifest. */
  function RowOf(o: Object): BucketDb.ObjectRow {
    BucketDb.ObjectRow(o.hashPath, o.size, o.etag, o.contentType)
  }

  lemma SizeOfStored(c: Config, w: World, w': World, b: string, k: string, body: Bytes, id: string)
    requires Inv(c, w') && Updated(w, w', b, k, Contents(body), {id})
    ensures w'.Has(b, k) && w'.Obj(b, k).size == |body|
  {
    NothingUnreadable(c, w', b, k);
    assert Lookup(w', b, k) == Contents(body);
  }

  /**
   The object is a blob no other object shares, and some other bucket's outdated snapshot
   still refers to it.
   */
  ghost predicate StaleBlob(w: World, b: string, k: string) {
    && w.Has(b, k) && w.Obj(b, k).chunks == []
    && StaleElsewhere(w, b, w.Obj(b, k).hashPath)
    && !Shared(w.WithDb(b, w.dbs[b].WithoutObject(k)), w.Obj(b, k).hashPath)
  }

  lemma NotStale(w: World, b: string, k: string)
    ensures !w.Has(b, k) ==> !StaleBlob(w, b, k)
  {
  }

  lemma NothingDone(c: Config, w: World)
    ensures forall id :: Contained(c, w, w, id)
    ensures Recoverable(c, w) ==> Readable(c, DiskOf(w))
  {
    forall id ensures Contained(c, w, w, id) {
      ContainedFiles(c, w, w, id);
    }
  }

  lemma SafeReadable(c: Config, w: World)
    ensures Recoverable(c, w) ==> Readable(c, DiskOf(w))
  {
  }

  /** A deletion that leaves only needed data behind takes a stale blob's data away. */
  lemma StaleDataGone(c: Config, w: World, w': World, b: string, k: string)
    requires Inv(c, w) && Inv(c, w') && StaleBlob(w, b, k)
    requires w'.dbs == w.dbs[b := w.dbs[b].WithoutObject(k)] && w'.remote == w.remote[b := w.dbs[b].WithoutObject(k)]
    requires forall p :: Needs(w.Obj(b, k), p) ==> (p in w'.files <==> Needed(w', p))
    ensures !Readable(c, DiskOf(w'))
  {
    hide Needed, Readable, StaleElsewhere, WellStored, Needs;
    BlobOf(c, w, b, k);
    BlobNeededIff(c, w', w.files[w.Obj(b, k).hashPath]);
    StaleBlobAfter(w, w', b, k);
    StaleBlobLost(c, w, w', b, k);
  }

  lemma StaleBlobAfter(w: World, w': World, b: string, k: string)
    requires w.Has(b, k) && w.Obj(b, k).chunks == []
    requires w'.dbs == w.dbs[b := w.dbs[b].WithoutObject(k)] && w'.remote == w.remote[b := w.dbs[b].WithoutObject(k)]
    ensures StaleBlob(w, b, k) <==>
      StaleElsewhere(w', b, w.Obj(b, k).hashPath) && !Shared(w', w.Obj(b, k).hashPath)
  {
    var p := w.Obj(b, k).hashPath;
    var w1 := w.WithDb(b, w.dbs[b].WithoutObject(k));
    SharedByTables(w1, w', p);
    StaleUnchanged(w, w', b, p);
    StaleUnchanged(w', w, b, p);
  }

  lemma SharedByTables(w: World, w': World, p: string)
    requires w'.dbs == w.dbs
    ensures Shared(w', p) <==> Shared(w, p)
  {
    assert forall b, k :: w'.Has(b, k) <==> w.Has(b, k);
    assert forall b :: RefersIn(w', b, p) <==> RefersIn(w, b, p);
  }

  /** Deleting a stale blob's data leaves a snapshot that cannot be read. */
  lemma StaleBlobLost(c: Config, w: World, w': World, b: string, k: string)
    requires Inv(c, w) && StaleBlob(w, b, k)
    requires w'.dbs == w.dbs[b := w.dbs[b].WithoutObject(k)] && w'.remote == w.remote[b := w.dbs[b].WithoutObject(k)]
    requires w.Obj(b, k).hashPath !in w'.files
    ensures !Readable(c, DiskOf(w'))
  {
    var p := w.Obj(b, k).hashPath;
    var b', k' :| b' != b && w.RemoteHas(b', k') && Needs(w.RemoteObj(b', k'), p);
    var d := DiskOf(w');
    assert b' in d.remote && k' in d.remote[b'].objects && d.remote[b'].objects[k'] == w.RemoteObj(b', k');
  }

  lemma RemoveStep(c: Config, w: World, b: string, k: string)
    requires Inv(c, w) && b in w.dbs
    ensures
      var w' := w.WithDb(b, w.dbs[b].WithoutObject(k));
      Inv(c, w') && Updated(w, w', b, k, NoSuchObject, {}) && (Recoverable(c, w) ==> Recoverable(c, w'))
  {
    var w' := w.WithDb(b, w.dbs[b].WithoutObject(k));
    ObjectRemoved(c, w, b, k);
    if Recoverable(c, w) {
      assert forall b', k' :: w'.Has(b', k') ==> w.Has(b', k') && w'.Obj(b', k') == w.Obj(b', k');
      OthersUntouched(w, w', b);
      LocalStepRecoverable(c, w, w');
    }
  }

  lemma SyncStep(c: Config, w: World, b: string)
    requires Inv(c, w) && b in w.dbs
    ensures Inv(c, w.Synced(b)) && SameContents(w, w.Synced(b), {})
    ensures Recoverable(c, w) ==> Recoverable(c, w.Synced(b))
  {
    SyncKeepsInv(c, w, b);
    if Recoverable(c, w) { SyncRecoverable(c, w, b); }
  }

  lemma DropStep(c: Config, w: World, b: string, p: string)
    requires Inv(c, w) && b in w.dbs && b in w.remote && w.remote[b] == w.dbs[b]
    requires StoragePath(c.base, c.sha, p) && !Needed(w, p)
    ensures
      var w' := w.(files := RemoveTree(w.files, p));
      && Inv(c, w') && SameContents(w, w', {})
      && (Recoverable(c, w) && !StaleElsewhere(w, b, p) ==> Recoverable(c, w'))
  {
    FileDropped(c, w, p);
    if Recoverable(c, w) && !StaleElsewhere(w, b, p) { DropRecoverable(c, w, b, p); }
  }

  /** The parts of a deleted object are nobody's: not here, not in any snapshot. */
  lemma ChunkAbandoned(c: Config, w: World, w': World, b: string, k: string, p: string)
    requires Inv(c, w) && w.Has(b, k) && w.Obj(b, k).chunks != [] && Needs(w.Obj(b, k), p)
    requires w'.dbs == w.dbs[b := w.dbs[b].WithoutObject(k)] && w'.remote == w.remote[b := w.dbs[b].WithoutObject(k)]
    ensures StoragePath(c.base, c.sha, p) && !Needed(w', p)
    ensures Recoverable(c, w) ==> !StaleElsewhere(w', b, p)
  {
    var o := w.Obj(b, k);
    assert WellStored(c, w.files, o);
    NeedsStoragePath(c, w.files, o, p);
    NeedsWithinOwner(c, w.files, o, p);
    forall b', k' | w'.Has(b', k') ensures !Needs(w'.Obj(b', k'), p) {
      assert w.Has(b', k') && w.Obj(b', k') == w'.Obj(b', k') && (b', k') != (b, k);
      if Needs(w.Obj(b', k'), p) { NeedsWithinOwner(c, w.files, w.Obj(b', k'), p); }
    }
    forall b', u, n | w'.HasPart(b', u, n) ensures w'.PartOf(b', u, n).path != p {
      assert w.HasPart(b', u, n) && w.Live(b', u) && w'.PartOf(b', u, n) == w.PartOf(b', u, n);
      assert PartStored(c, w.files, u, n, w.PartOf(b', u, n));
      UploadOfPartPath(c.base, u, n);
    }
    if Recoverable(c, w) {
      forall b', k' | b' != b && w'.RemoteHas(b', k') ensures !Needs(w'.RemoteObj(b', k'), p) {
        SnapshotAvoidsOwned(c, w, b, k, b', k', p);
      }
    }
  }

  lemma SnapshotAvoidsOwned(c: Config, w: World, b: string, k: string, b': string, k': string, p: string)
    requires Inv(c, w) && Recoverable(c, w) && w.Has(b, k) && Owner(c, w.Obj(b, k)).Some?
    requires UploadOf(c.base, p) == Owner(c, w.Obj(b, k))
    requires b' != b && w.RemoteHas(b', k')
    ensures !Needs(w.RemoteObj(b', k'), p)
  {
    assert WellStored(c, w.files, DiskOf(w).remote[b'].objects[k']);
    if Needs(w.RemoteObj(b', k'), p) {
      NeedsWithinOwner(c, w.files, w.RemoteObj(b', k'), p);
    }
  }

  lemma ChunksAbandoned(c: Config, w: World, w': World, b: string, k: string)
    requires Inv(c, w) && w.Has(b, k) && w.Obj(b, k).chunks != []
    requires w'.dbs == w.dbs[b := w.dbs[b].WithoutObject(k)] && w'.remote == w.remote[b := w.dbs[b].WithoutObject(k)]
    ensures forall p :: Needs(w.Obj(b, k), p) ==> !Needed(w', p)
  {
    forall p | Needs(w.Obj(b, k), p) ensures !Needed(w', p) {
      ChunkAbandoned(c, w, w', b, k, p);
    }
  }

  lemma BlobOf(c: Config, w: World, b: string, k: string)
    requires Inv(c, w) && w.Has(b, k) && w.Obj(b, k).chunks == []
    ensures var o := w.Obj(b, k);
      && c.Valid() && o.hashPath != "" && o.hashPath in w.files
      && o.hashPath == c.BlobPath(w.files[o.hashPath])
      && forall p :: Needs(o, p) <==> p == o.hashPath
  {
    assert WellStored(c, w.files, w.Obj(b, k));
  }

  lemma BlobOutcome(c: Config, w: World, w': World, data: Bytes)
    requires Inv(c, w') && w'.dbs == w.dbs
    ensures Needed(w', c.BlobPath(data)) <==> Shared(w, c.BlobPath(data))
    ensures Needed(w', c.BlobPath(data)) ==> c.BlobPath(data) in w'.files
  {
    BlobNeededIff(c, w', data);
    assert forall b, k :: w'.Has(b, k) <==> w.Has(b, k);
    assert forall b, k :: w'.Has(b, k) ==> w'.Obj(b, k) == w.Obj(b, k);
    assert forall b, p :: RefersIn(w', b, p) <==> RefersIn(w, b, p);
  }

  lemma StaleUnchanged(w: World, w': World, b: string, p: string)
    requires forall b' :: b' != b ==>
      (b' in w'.remote <==> b' in w.remote) && (b' in w.remote ==> w'.remote[b'] == w.remote[b'])
    ensures StaleElsewhere(w', b, p) ==> StaleElsewhere(w, b, p)
  {
    if b', k :| b' != b && w'.RemoteHas(b', k) && Needs(w'.RemoteObj(b', k), p) {
      assert w.RemoteHas(b', k) && w.RemoteObj(b', k) == w'.RemoteObj(b', k);
    }
  }

  lemma RefersWithin(w: World, p: string)
    ensures forall b :: RefersIn(w, b, p) ==> b in w.dbs.Keys
  {
  }

  lemma ConfigOf(c: Config, w: World)
    requires Inv(c, w)
    ensures c.Valid()
  {
  }

  lemma BlobSent(c: Config, w: World, body: Bytes)
    requires Inv(c, w) && body in c.bodies
    ensures Inv(c, w.WithFile(c.BlobPath(body), body)) && SameContents(w, w.WithFile(c.BlobPath(body), body), {})
    ensures Recoverable(c, w) ==> Recoverable(c, w.WithFile(c.BlobPath(body), body))
  {
    BlobWritten(c, w, body);
    if Recoverable(c, w) { BlobWriteRecoverable(c, w, body); }
  }

  lemma RecordStep(c: Config, w: World, b: string, k: string, o: Object, body: Bytes)
    requires Inv(c, w) && b in w.dbs
    requires o.chunks == [] && o.hashPath == c.BlobPath(body) && o.size == |body|
    requires o.hashPath in w.files && w.files[o.hashPath] == body
    ensures
      var w' := w.WithDb(b, w.dbs[b].WithObject(k, o));
      Inv(c, w') && Updated(w, w', b, k, Contents(body), {}) && (Recoverable(c, w) ==> Recoverable(c, w'))
  {
    var w' := w.WithDb(b, w.dbs[b].WithObject(k, o));
    BlobRecorded(c, w, b, k, o);
    if Recoverable(c, w) {
      ObjectReplaced(c, w, w', b, k, o);
      OthersUntouched(w, w', b);
      LocalStepRecoverable(c, w, w');
    }
  }

  lemma NewUploadEmpty(c: Config, w: World, b: string, u: string, up: Upload)
    requires b in w.dbs && Fresh(c, w, u)
    ensures
      var w' := w.WithDb(b, w.dbs[b].WithUpload(u, up)).Synced(b);
      w'.Live(b, u) && forall n :: !w'.HasPart(b, u, n)
  {
    forall n ensures !w.WithDb(b, w.dbs[b].WithUpload(u, up)).Synced(b).HasPart(b, u, n) {
      assert !w.HasPart(b, u, n);
    }
  }

  lemma CompletedRecorded(w: World, b: string, k: string, u: string, o: Object)
    requires b in w.dbs
    ensures
      var w' := AfterCompletion(w, b, k, u, o).Synced(b);
      w'.Has(b, k) && w'.Obj(b, k) == o && b in w'.remote && w'.remote[b] == w'.dbs[b]
  {
  }

  lemma {:induction false} ConcatPrefixDefined(files: map<string, Bytes>, cs: seq<Chunk>, i: nat)
    requires i <= |cs| && Concat(files, cs).Some?
    ensures Concat(files, cs[..i]).Some?
    decreases |cs| - i
  {
    if i < |cs| {
      ConcatPrefixDefined(files, cs, i + 1);
      assert cs[..i + 1][..i] == cs[..i];
    } else {
      assert cs[..i] == cs;
    }
  }

  // ------------------------------------------------------------ ids not drawn yet

  lemma BlobContained(c: Config, w: World, w': World, data: Bytes)
    requires Inv(c, w) && (w' == w || w' == w.WithFile(c.BlobPath(data), data))
    ensures forall id :: Contained(c, w, w', id)
  {
    forall id ensures Contained(c, w, w', id) {
      ContainedFiles(c, w, w', id);
    }
  }

  lemma RecordContained(c: Config, w: World, w1: World, w3: World, b: string, k: string, o: Object)
    requires b in w1.dbs && o.chunks == []
    requires forall id :: Contained(c, w, w1, id)
    requires var w2 := w1.WithDb(b, w1.dbs[b].WithObject(k, o)); w3 == w2 || w3 == w2.Synced(b)
    ensures forall id :: Contained(c, w, w3, id)
  {
    hide Contained;
    var w2 := w1.WithDb(b, w1.dbs[b].WithObject(k, o));
    forall id ensures Contained(c, w, w3, id) {
      ContainedTables(c, w1, b, w1.dbs[b].WithObject(k, o), id);
      ContainedThrough(c, w, w1, w2, id);
      ContainedPublish(c, w, w2, w3, b, id);
    }
  }

  lemma CreateContained(c: Config, w: World, w': World, b: string, id: string, up: Upload)
    requires b in w.dbs
    requires var w1 := w.WithDb(b, w.dbs[b].WithUpload(id, up)); w' == w || w' == w1 || w' == w1.Synced(b)
    ensures Contained(c, w, w', id)
  {
    ContainedFiles(c, w, w, id);
    ContainedTables(c, w, b, w.dbs[b].WithUpload(id, up), id);
    if w' != w { ContainedPublish(c, w, w.WithDb(b, w.dbs[b].WithUpload(id, up)), w', b, id); }
  }

  lemma PartContained(c: Config, w: World, w': World, b: string, id: string, n: int, data: Bytes)
    requires b in w.dbs && Inv(c, w) && '/' !in id
    requires var w1 := AfterPart(c, w, b, id, n, data);
      w' == w || w' == w.(files := RemoveTree(w.files, PartPath(c.base, id, n))) || w' == w1 || w' == w1.Synced(b)
    ensures Contained(c, w, w', id)
  {
    var p := PartPath(c.base, id, n);
    assert StoragePath(c.base, c.sha, p);
    if w' == w || w' == w.(files := RemoveTree(w.files, p)) {
      ContainedFiles(c, w, w', id);
    } else {
      var part := Part(PartPath(c.base, id, n), |data|, c.ETag(data));
      var w0 := w.WithFile(part.path, data);
      ContainedFiles(c, w, w0, id);
      ContainedTables(c, w0, b, w.dbs[b].WithPart(id, n, part), id);
      ContainedThrough(c, w, w0, AfterPart(c, w, b, id, n, data), id);
      ContainedPublish(c, w, AfterPart(c, w, b, id, n, data), w', b, id);
    }
  }

  lemma CompleteContained(c: Config, w: World, w': World, b: string, k: string, id: string, parts: seq<CompletePart>)
    requires Inv(c, w) && b in w.dbs && parts != [] && Completion(c, w.dbs[b], id, parts).Ok?
    requires var w1 := AfterCompletion(w, b, k, id, Completion(c, w.dbs[b], id, parts).value);
      w' == w1 || w' == w1.Synced(b)
    ensures Contained(c, w, w', id)
  {
    hide Completion, AfterCompletion;
    var o := Completion(c, w.dbs[b], id, parts).value;
    CompletionManifest(c, w, b, id, parts);
    ContainedCompletion(c, w, b, id, k, o);
    BucketStays(w, b, k, id, o);
    ContainedPublish(c, w, AfterCompletion(w, b, k, id, o), w', b, id);
  }

  lemma BucketStays(w: World, b: string, k: string, id: string, o: Object)
    requires b in w.dbs
    ensures b in AfterCompletion(w, b, k, id, o).dbs
  {
  }

  lemma AbortContained(c: Config, w: World, w': World, b: string, id: string)
    requires b in w.dbs && forall p :: p in w'.files ==> p in w.files
    requires w' == w
      || (w'.dbs == w.dbs[b := w.dbs[b].WithoutUpload(id)]
          && (w'.remote == w.remote || w'.remote == w.remote[b := w.dbs[b].WithoutUpload(id)]))
    ensures Contained(c, w, w', id)
  {
    if w' == w {
      ContainedFiles(c, w, w', id);
    } else {
      TablesShrink(c, w, w', b, w.dbs[b].WithoutUpload(id), id);
    }
  }

  lemma TablesShrink(c: Config, w: World, w': World, b: string, t: Tables, id: string)
    requires b in w.dbs && forall p :: p in w'.files ==> p in w.files
    requires t.uploads.Keys <= w.dbs[b].uploads.Keys && t.parts.Keys <= w.dbs[b].parts.Keys
    requires forall k :: k in t.objects ==> k in w.dbs[b].objects && t.objects[k] == w.dbs[b].objects[k]
    requires w'.dbs == w.dbs[b := t] && (w'.remote == w.remote || w'.remote == w.remote[b := t])
    ensures Contained(c, w, w', id)
  {
    var w1 := w.WithDb(b, t);
    assert forall u :: u in t.uploads ==> u in t.uploads.Keys;
    assert forall q :: q in t.parts ==> q in t.parts.Keys;
    ContainedTables(c, w, b, t, id);
    var w2 := if w'.remote == w.remote then w1 else w1.Synced(b);
    ContainedPublish(c, w, w1, w2, b, id);
    ContainedFiles(c, w2, w', id);
    ContainedThrough(c, w, w2, w', id);
  }

  /** Deleting an object, published or not. */
  lemma DeleteContained(c: Config, w: World, w': World, b: string, k: string)
    requires b in w.dbs && forall p :: p in w'.files ==> p in w.files
    requires w' == w
      || (w'.dbs == w.dbs[b := w.dbs[b].WithoutObject(k)]
          && (w'.remote == w.remote || w'.remote == w.remote[b := w.dbs[b].WithoutObject(k)]))
    ensures forall id :: Contained(c, w, w', id)
  {
    forall id ensures Contained(c, w, w', id) {
      if w' == w {
        ContainedFiles(c, w, w', id);
      } else {
        TablesShrink(c, w, w', b, w.dbs[b].WithoutObject(k), id);
      }
    }
  }
}
