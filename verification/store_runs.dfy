/**
 Whole runs.  A client sees a plain map from (bucket, key) to bytes, and the parts it
 has sent for the uploads it has opened; the store represents that map after any
 sequence of calls, whichever of them failed.
 */
module StoreRuns {
  import opened GoStrings
  import opened Wrappers
  import opened Layout
  import opened BucketTables
  import opened StoreModel
  import opened StoreSteps
  import opened CrashModel
  import opened StoreCore
  import opened Multipart
  import opened ObjectStore
  import opened GarbageCollect
  import opened Collections
  import opened BucketDb
  import opened WebDavClient
  import opened RepairManager

  datatype Call =
    | Put(b: string, k: string, contentType: string, body: Bytes, id: string)
    | Get(b: string, k: string)
    | Delete(b: string, k: string)
    | Create(b: string, k: string, contentType: string, id: string)
    | UploadPart(b: string, k: string, u: string, n: int, body: Bytes)
    | Complete(b: string, k: string, u: string, parts: seq<CompletePart>)
    | Abort(b: string, u: string)
    | Collect

  /** The client's view: objects, uploads opened, and the bytes last sent for each part. */
  datatype Model = Model(
    objects: map<(string, string), Bytes>,
    begun: set<(string, string)>,
    parts: map<(string, string, int), Bytes>)

  function JoinParts(m: Model, b: string, u: string, parts: seq<CompletePart>): Bytes {
    if parts == [] then []
    else
      var q := (b, u, parts[|parts| - 1].number);
      JoinParts(m, b, u, parts[..|parts| - 1]) + if q in m.parts then m.parts[q] else []
  }

  /** What a call does to the client's view, given whether it took effect. */
  function Meaning(m: Model, call: Call, took: bool): Model {
    if !took then m
    else
      match call
      case Put(b, k, _, body, _) => m.(objects := m.objects[(b, k) := body])
      case Delete(b, k) => m.(objects := m.objects - {(b, k)})
      case Create(b, _, _, id) => m.(begun := m.begun + {(b, id)})
      case UploadPart(b, _, u, n, body) => m.(parts := m.parts[(b, u, n) := body])
      case Complete(b, k, u, parts) => m.(objects := m.objects[(b, k) := JoinParts(m, b, u, SortParts(parts))])
      case _ => m
  }

  /** Ids are drawn once; clients use the ids they were given, and list at least one part. */
  predicate Proper(m: Model, call: Call) {
    match call
    case Put(_, _, _, _, id) => forall q | q in m.begun :: q.1 != id
    case Create(_, _, _, id) => forall q | q in m.begun :: q.1 != id
    case UploadPart(b, _, u, _, _) => (b, u) in m.begun
    case Complete(b, _, u, parts) => (b, u) in m.begun && parts != []
    case Abort(b, u) => (b, u) in m.begun
    case _ => true
  }

  ghost predicate PartHolds(w: World, b: string, u: string, n: int, data: Bytes) {
    w.HasPart(b, u, n) && w.PartOf(b, u, n).path in w.files && w.files[w.PartOf(b, u, n).path] == data
  }

  ghost predicate ObjectsMatch(w: World, m: Model) {
    forall b, k :: Lookup(w, b, k) == if (b, k) in m.objects then Contents(m.objects[(b, k)]) else NoSuchObject
  }

  ghost predicate PartsMatch(w: World, m: Model) {
    forall b, u, n :: (b, u) in m.begun && w.HasPart(b, u, n) ==>
      (b, u, n) in m.parts && PartHolds(w, b, u, n, m.parts[(b, u, n)])
  }

  ghost predicate Represents(w: World, m: Model) {
    ObjectsMatch(w, m) && PartsMatch(w, m)
  }

  ghost predicate NoParts(w: World, u: string) {
    forall b, n :: !w.HasPart(b, u, n)
  }

  ghost predicate PartUntouched(w: World, w': World, b: string, u: string, n: int) {
    && w.HasPart(b, u, n) && w'.HasPart(b, u, n) && w'.PartOf(b, u, n) == w.PartOf(b, u, n)
    && AgreeOn(w.files, w'.files, w.PartOf(b, u, n).path)
  }

  /** What one call did to the store. */
  ghost predicate Performed(c: Config, w: World, call: Call, took: bool, w': World) {
    match call
    case Put(b, k, _, body, id) =>
      Fresh(c, w, id) && if took then Updated(w, w', b, k, Contents(body), {id}) else SameContents(w, w', {id})
    case Get(_, _) => w' == w
    case Delete(b, k) =>
      if took then Updated(w, w', b, k, NoSuchObject, {}) else SameContents(w, w', {})
    case Create(b, k, ct, id) => Fresh(c, w, id) && SameContents(w, w', {})
    case UploadPart(b, _, u, n, body) =>
      && SameContents(w, w', {u})
      && (forall b', n' :: w'.HasPart(b', u, n') ==>
        if took && (b', n') == (b, n) then PartHolds(w', b, u, n, body) else PartUntouched(w, w', b', u, n'))
    case Complete(b, k, u, parts) =>
      if took then
        && b in w.dbs && Completion(c, w.dbs[b], u, parts).Ok?
        && var cs := Completion(c, w.dbs[b], u, parts).value.chunks;
        Concat(w.files, cs).Some? && Updated(w, w', b, k, Contents(Concat(w.files, cs).value), {u}) && NoParts(w', u)
      else SameContents(w, w', {})
    case Abort(b, u) => SameContents(w, w', {u}) && (NoParts(w', u) || w' == w)
    case Collect => SameContents(w, w', {})
  }

  /** The parts a completion joins are the bytes the client sent. */
  lemma {:induction false} CompletionJoins(w: World, m: Model, b: string, u: string, parts: seq<CompletePart>)
    requires Represents(w, m) && (b, u) in m.begun && b in w.dbs
    requires Manifest(w.dbs[b], u, parts).Ok?
    ensures Concat(w.files, Manifest(w.dbs[b], u, parts).value) == Some(JoinParts(m, b, u, parts))
  {
    if parts != [] {
      var n := |parts| - 1;
      CompletionJoins(w, m, b, u, parts[..n]);
      var before := Manifest(w.dbs[b], u, parts[..n]).value;
      var last := ChunkFrom(parts[n].number, w.dbs[b].parts[(u, parts[n].number)]);
      assert (before + [last])[..|before|] == before;
      assert w.HasPart(b, u, parts[n].number);
    }
  }

  /** Parts of the uploads a call leaves alone. */
  lemma PartsCarry(w: World, w': World, m: Model, m': Model, touched: set<string>)
    requires PartsMatch(w, m) && PartsKept(w, w', touched)
    requires forall b, u :: (b, u) in m'.begun && u !in touched ==> (b, u) in m.begun
    requires forall q :: q in m.parts && q.1 !in touched ==> q in m'.parts && m'.parts[q] == m.parts[q]
    requires forall b, u, n :: (b, u) in m'.begun && u in touched && w'.HasPart(b, u, n) ==>
      (b, u, n) in m'.parts && PartHolds(w', b, u, n, m'.parts[(b, u, n)])
    ensures PartsMatch(w', m')
  {
    forall b, u, n | (b, u) in m'.begun && w'.HasPart(b, u, n) && u !in touched
      ensures (b, u, n) in m'.parts && PartHolds(w', b, u, n, m'.parts[(b, u, n)])
    {
      assert w.HasPart(b, u, n) && PartHolds(w, b, u, n, m.parts[(b, u, n)]);
    }
  }

  lemma UploadPartRepresents(c: Config, w: World, m: Model, call: Call, took: bool, w': World)
    requires call.UploadPart? && Represents(w, m) && Proper(m, call) && Performed(c, w, call, took, w')
    ensures Represents(w', Meaning(m, call, took))
  {
    var UploadPart(b, k, u, n, body) := call;
    var m' := Meaning(m, call, took);
    forall b', n' | (b', u) in m'.begun && w'.HasPart(b', u, n')
      ensures (b', u, n') in m'.parts && PartHolds(w', b', u, n', m'.parts[(b', u, n')])
    {
      if !(took && (b', n') == (b, n)) {
        assert PartUntouched(w, w', b', u, n');
        assert PartHolds(w, b', u, n', m.parts[(b', u, n')]);
      }
    }
    PartsCarry(w, w', m, m', {u});
  }

  /** One call keeps the correspondence. */
  lemma StepRepresents(c: Config, w: World, m: Model, call: Call, took: bool, w': World)
    requires Represents(w, m) && Proper(m, call) && Performed(c, w, call, took, w')
    ensures Represents(w', Meaning(m, call, took))
  {
    hide PartsKept, PartsMatch;
    var m' := Meaning(m, call, took);
    match call
    case Put(b, k, ct, body, id) => PartsCarry(w, w', m, m', {id});
    case Get(b, k) =>
    case Delete(b, k) => PartsCarry(w, w', m, m', {});
    case Create(b, k, ct, id) => CreateRepresents(c, w, m, call, took, w');
    case UploadPart(b, k, u, n, body) => UploadPartRepresents(c, w, m, call, took, w');
    case Complete(b, k, u, parts) => CompleteRepresents(c, w, m, call, took, w');
    case Abort(b, u) => AbortRepresents(c, w, m, call, took, w');
    case Collect => PartsCarry(w, w', m, m', {});
  }

  lemma CompleteRepresents(c: Config, w: World, m: Model, call: Call, took: bool, w': World)
    requires call.Complete? && Represents(w, m) && Proper(m, call) && Performed(c, w, call, took, w')
    ensures Represents(w', Meaning(m, call, took))
  {
    hide PartsKept, PartsMatch;
    var Complete(b, k, u, parts) := call;
    var m' := Meaning(m, call, took);
    if took {
      CompletionJoins(w, m, b, u, SortParts(parts));
      PartsCarry(w, w', m, m', {u});
    } else {
      PartsCarry(w, w', m, m', {});
    }
  }

  lemma AbortRepresents(c: Config, w: World, m: Model, call: Call, took: bool, w': World)
    requires call.Abort? && Represents(w, m) && Performed(c, w, call, took, w')
    ensures Represents(w', Meaning(m, call, took))
  {
    hide PartsKept, PartsMatch;
    if NoParts(w', call.u) { PartsCarry(w, w', m, Meaning(m, call, took), {call.u}); }
  }

  lemma CreateRepresents(c: Config, w: World, m: Model, call: Call, took: bool, w': World)
    requires call.Create? && Represents(w, m) && Performed(c, w, call, took, w')
    ensures Represents(w', Meaning(m, call, took))
  {
    var m' := Meaning(m, call, took);
    assert forall b, n :: w'.HasPart(b, call.id, n) ==> w.HasPart(b, call.id, n);
    forall b, u, n | (b, u) in m'.begun && w'.HasPart(b, u, n)
      ensures (b, u, n) in m'.parts && PartHolds(w', b, u, n, m'.parts[(b, u, n)])
    {
      assert w.HasPart(b, u, n) && PartHolds(w, b, u, n, m.parts[(b, u, n)]);
    }
  }

  /** The client's view after a whole run. */
  function Meanings(m: Model, calls: seq<Call>, tooks: seq<bool>): Model
    requires |calls| == |tooks|
  {
    if calls == [] then m
    else Meaning(Meanings(m, calls[..|calls| - 1], tooks[..|calls| - 1]), calls[|calls| - 1], tooks[|calls| - 1])
  }

  ghost predicate IsRun(c: Config, ws: seq<World>, calls: seq<Call>, tooks: seq<bool>, m: Model) {
    && |ws| == |calls| + 1 && |tooks| == |calls|
    && forall i :: 0 <= i < |calls| ==>
      Performed(c, ws[i], calls[i], tooks[i], ws[i + 1]) && Proper(Meanings(m, calls[..i], tooks[..i]), calls[i])
  }

  lemma RunPrefix(c: Config, ws: seq<World>, calls: seq<Call>, tooks: seq<bool>, m: Model, n: nat)
    requires IsRun(c, ws, calls, tooks, m) && n <= |calls|
    ensures IsRun(c, ws[..n + 1], calls[..n], tooks[..n], m)
  {
    hide Performed, Proper, Meanings;
    forall i | 0 <= i < n
      ensures Performed(c, ws[..n + 1][i], calls[..n][i], tooks[..n][i], ws[..n + 1][i + 1])
      ensures Proper(Meanings(m, calls[..n][..i], tooks[..n][..i]), calls[..n][i])
    {
      assert calls[..n][..i] == calls[..i] && tooks[..n][..i] == tooks[..i];
    }
  }

  /** After every run, reads return exactly the bytes last stored. */
  lemma {:induction false} RunRefinesMap(c: Config, ws: seq<World>, calls: seq<Call>, tooks: seq<bool>, m: Model)
    requires IsRun(c, ws, calls, tooks, m) && Represents(ws[0], m)
    ensures Represents(ws[|calls|], Meanings(m, calls, tooks))
  {
    hide Performed, Proper, Represents, Meaning;
    if calls != [] {
      var n := |calls| - 1;
      RunPrefix(c, ws, calls, tooks, m, n);
      RunRefinesMap(c, ws[..n + 1], calls[..n], tooks[..n], m);
      StepRepresents(c, ws[n], Meanings(m, calls[..n], tooks[..n]), calls[n], tooks[n], ws[n + 1]);
    }
  }

  /** A location nobody has written to is in order, crash safe, and represents the empty map. */
  lemma EmptyStoreRepresents(c: Config, w: World)
    requires c.Valid() && w.files == map[]
    requires forall b :: b in w.dbs ==> w.dbs[b] == EMPTY_TABLES
    requires forall b :: b in w.remote ==> w.remote[b] == EMPTY_TABLES
    ensures Inv(c, w) && Recoverable(c, w)
    ensures Represents(w, Model(map[], {}, map[]))
  {
    assert forall b, k :: !w.Has(b, k) && !w.RemoteHas(b, k);
    assert forall b, u :: !w.Live(b, u);
    assert forall b, u, n :: !w.HasPart(b, u, n);
  }

  /**
   The calls after which a crash could lose data: deleting the last local reference to a
   blob that another bucket's outdated snapshot still needs, and collecting what some
   outdated snapshot still needs.
   */
  ghost predicate Risky(c: Config, w: World, call: Call) {
    (call.Delete? && StaleBlob(w, call.b, call.k)) || (call.Collect? && !SnapshotsKept(c, w))
  }

  /** The id a call may bring into the tables; any will do where it brings none. */
  ghost predicate Names(call: Call, id: string) {
    match call
    case Put(_, _, _, _, x) => id == x
    case Create(_, _, _, x) => id == x
    case UploadPart(_, _, u, _, _) => id == u
    case Complete(_, _, u, _) => id == u
    case Abort(_, u) => id == u
    case _ => true
  }

  /** What a call leaves alone: ids not drawn yet, and paths outside the layout. */
  ghost predicate Keeps(c: Config, w: World, call: Call, w': World) {
    forall id :: Names(call, id) ==> Contained(c, w, w', id)
  }

  /** What a reader is told. */
  datatype Answer = NotAsked | Found(data: Bytes) | Missing | Failed

  /** A read tells the truth about the store, or that it failed. */
  ghost predicate Truthful(w: World, call: Call, answer: Answer) {
    if call.Get? then
      match answer
      case Found(data) => Lookup(w, call.b, call.k) == Contents(data)
      case Missing => Lookup(w, call.b, call.k) == NoSuchObject
      case Failed => true
      case NotAsked => false
    else answer == NotAsked
  }

  /** A read tells the client what its own view says. */
  predicate Agrees(m: Model, call: Call, answer: Answer) {
    if call.Get? then
      match answer
      case Found(data) => (call.b, call.k) in m.objects && m.objects[(call.b, call.k)] == data
      case Missing => (call.b, call.k) !in m.objects
      case Failed => true
      case NotAsked => false
    else answer == NotAsked
  }

  lemma TruthfulAgrees(w: World, m: Model, call: Call, answer: Answer)
    requires Represents(w, m) && Truthful(w, call, answer)
    ensures Agrees(m, call, answer)
  {
  }

  // ------------------------------------------------------------ sessions

  /** The calls a client has sent, whether they took effect, and what it was told. */
  datatype Run = Run(calls: seq<Call>, tooks: seq<bool>, answers: seq<Answer>)

  predicate Draws(call: Call) {
    call.Put? || call.Create?
  }

  /** No two calls draw the same id. */
  ghost predicate DistinctIds(calls: seq<Call>) {
    forall i, j :: 0 <= i < j < |calls| && Draws(calls[i]) && Draws(calls[j]) ==> calls[i].id != calls[j].id
  }

  /** The ids still to be drawn have never been seen, by the store or by the client. */
  ghost predicate Undrawn(c: Config, w: World, m: Model, calls: seq<Call>, from: nat) {
    forall j :: from <= j < |calls| && Draws(calls[j]) ==>
      Fresh(c, w, calls[j].id) && forall q :: q in m.begun ==> q.1 != calls[j].id
  }

  /** Of the calls offered, the proper ones have been sent, in order. */
  ghost predicate Sent(m0: Model, offered: seq<Call>, run: Run)
    decreases |offered|
  {
    && |run.calls| == |run.tooks| == |run.answers|
    && if offered == [] then run.calls == []
       else
         var n, k := |offered| - 1, |run.calls| - 1;
         || (!Proper(Meanings(m0, run.calls, run.tooks), offered[n]) && Sent(m0, offered[..n], run))
         || (k >= 0 && run.calls[k] == offered[n]
             && Proper(Meanings(m0, run.calls[..k], run.tooks[..k]), offered[n])
             && Sent(m0, offered[..n], Run(run.calls[..k], run.tooks[..k], run.answers[..k])))
  }

  /** Every read was answered as the client's own map says at that moment. */
  ghost predicate AllAgree(m0: Model, run: Run) {
    && |run.calls| == |run.tooks| == |run.answers|
    && forall i :: 0 <= i < |run.calls| ==>
      Agrees(Meanings(m0, run.calls[..i], run.tooks[..i]), run.calls[i], run.answers[i])
  }

  /** The last call was a part the client had sent before, and failed. */
  ghost predicate ResendFailed(m0: Model, run: Run) {
    && |run.calls| == |run.tooks| && run.calls != []
    && var k := |run.calls| - 1;
       var call := run.calls[k];
       call.UploadPart? && !run.tooks[k]
       && (call.b, call.u, call.n) in Meanings(m0, run.calls[..k], run.tooks[..k]).parts
  }

  lemma NothingSent(c: Config, m0: Model, w: World)
    ensures Sent(m0, [], Run([], [], [])) && AllAgree(m0, Run([], [], []))
    ensures IsRun(c, [w], [], [], m0) && Meanings(m0, [], []) == m0
  {
  }

  lemma SkipOne(c: Config, w: World, m0: Model, m: Model, calls: seq<Call>, i: nat, run: Run)
    requires i < |calls| && |run.calls| == |run.tooks| && m == Meanings(m0, run.calls, run.tooks)
      && !Proper(m, calls[i])
    requires Sent(m0, calls[..i], run) && Undrawn(c, w, m, calls, i)
    ensures Sent(m0, calls[..i + 1], run) && Undrawn(c, w, m, calls, i + 1)
  {
    assert calls[..i + 1][..i] == calls[..i];
  }

  lemma ReadyFor(c: Config, w: World, m: Model, calls: seq<Call>, i: nat)
    requires i < |calls| && Undrawn(c, w, m, calls, i) && Proper(m, calls[i])
    ensures Draws(calls[i]) ==> Fresh(c, w, calls[i].id)
    ensures calls[i].Complete? ==> calls[i].parts != []
  {
  }

  lemma SendOne(m0: Model, offered: seq<Call>, run: Run, call: Call, took: bool, answer: Answer)
    requires Sent(m0, offered, run) && AllAgree(m0, run)
    requires Proper(Meanings(m0, run.calls, run.tooks), call)
      && Agrees(Meanings(m0, run.calls, run.tooks), call, answer)
    ensures var run' := Run(run.calls + [call], run.tooks + [took], run.answers + [answer]);
      Sent(m0, offered + [call], run') && AllAgree(m0, run')
  {
    hide Proper, Agrees, Meanings;
    var run' := Run(run.calls + [call], run.tooks + [took], run.answers + [answer]);
    var k := |run.calls|;
    assert run'.calls[..k] == run.calls && run'.tooks[..k] == run.tooks && run'.answers[..k] == run.answers;
    assert (offered + [call])[..|offered|] == offered;
    forall i | 0 <= i < |run'.calls|
      ensures Agrees(Meanings(m0, run'.calls[..i], run'.tooks[..i]), run'.calls[i], run'.answers[i])
    {
      if i < k {
        assert run'.calls[..i] == run.calls[..i] && run'.tooks[..i] == run.tooks[..i];
      }
    }
  }

  lemma ResendEnds(m0: Model, run: Run, run': Run, call: Call, m: Model)
    requires |run.calls| == |run.tooks| && m == Meanings(m0, run.calls, run.tooks)
    requires run'.calls == run.calls + [call] && run'.tooks == run.tooks + [false]
    requires call.UploadPart? && (call.b, call.u, call.n) in m.parts
    ensures ResendFailed(m0, run')
  {
    assert run'.calls[..|run.calls|] == run.calls && run'.tooks[..|run.calls|] == run.tooks;
  }

  /** A part the client has never sent is not recorded. */
  lemma NotRecorded(w: World, m: Model, call: Call, took: bool)
    requires Represents(w, m) && Proper(m, call)
    ensures call.UploadPart? && (call.b, call.u, call.n) !in m.parts ==> !w.HasPart(call.b, call.u, call.n)
  {
  }

  /** Serving a proper call leaves the ids of later calls undrawn. */
  lemma DrawOn(c: Config, w: World, w': World, m: Model, calls: seq<Call>, i: nat, took: bool)
    requires i < |calls| && DistinctIds(calls) && Undrawn(c, w, m, calls, i) && Proper(m, calls[i])
    requires Keeps(c, w, calls[i], w')
    ensures Undrawn(c, w', Meaning(m, calls[i], took), calls, i + 1)
  {
    hide Fresh;
    var call := calls[i];
    forall j | i < j < |calls| && Draws(calls[j])
      ensures Fresh(c, w', calls[j].id)
      ensures forall q :: q in Meaning(m, call, took).begun ==> q.1 != calls[j].id
    {
      var x := calls[j].id;
      var id :=
        if Draws(call) then call.id
        else if call.UploadPart? || call.Complete? || call.Abort? then call.u
        else x + "x";
      assert id != x;
      assert Names(call, id) && Contained(c, w, w', id);
    }
  }

  lemma RunGrows(c: Config, ws: seq<World>, run: Run, m0: Model, call: Call, took: bool, w': World)
    requires |run.calls| == |run.tooks| && IsRun(c, ws, run.calls, run.tooks, m0)
    requires Performed(c, ws[|run.calls|], call, took, w') && Proper(Meanings(m0, run.calls, run.tooks), call)
    ensures IsRun(c, ws + [w'], run.calls + [call], run.tooks + [took], m0)
    ensures Meanings(m0, run.calls + [call], run.tooks + [took]) ==
      Meaning(Meanings(m0, run.calls, run.tooks), call, took)
  {
    hide Performed, Proper, Meaning;
    var calls, tooks := run.calls + [call], run.tooks + [took];
    var k := |run.calls|;
    assert calls[..k] == run.calls && tooks[..k] == run.tooks;
    forall i | 0 <= i < |calls|
      ensures Performed(c, (ws + [w'])[i], calls[i], tooks[i], (ws + [w'])[i + 1])
      ensures Proper(Meanings(m0, calls[..i], tooks[..i]), calls[i])
    {
      if i < k {
        assert calls[..i] == run.calls[..i] && tooks[..i] == run.tooks[..i];
      }
    }
  }

  /** The three services over one shared core. */
  class Gateway {
    const core: Core
    const objects: ObjectService
    const uploads: MultipartService
    const collector: Collector

    constructor (core: Core, objects: ObjectService, uploads: MultipartService, collector: Collector)
      requires objects.core == core && objects.mp.core == core && uploads.core == core && collector.core == core
      ensures this.core == core && Wired()
    {
      this.core, this.objects, this.uploads, this.collector := core, objects, uploads, collector;
    }

    ghost predicate Wired() {
      objects.core == core && objects.mp.core == core && uploads.core == core && collector.core == core
    }

    /**
     Serves one call.  The store stays in order, except that sending a recorded part
     again may fail half way.
     */
    method Serve(call: Call) returns (took: bool, answer: Answer)
      requires Wired() && core.Valid() && CleanPaths(core.c.base, core.World().files)
      requires call.Put? || call.Create? ==> Fresh(core.c, core.World(), call.id)
      requires call.Put? && !objects.Splits(call.body) ==> call.body in core.c.bodies
      requires call.Complete? ==> call.parts != []
      modifies core.Repr()
      ensures !(call.UploadPart? && !took && old(core.World()).HasPart(call.b, call.u, call.n)) ==>
        Performed(core.c, old(core.World()), call, took, core.World()) && core.Valid()
      ensures Keeps(core.c, old(core.World()), call, core.World()) && CleanPaths(core.c.base, core.World().files)
      ensures Truthful(old(core.World()), call, answer)
      ensures core.dav.faults >= old(core.dav.faults) && (core.dav.faults == old(core.dav.faults) ==> answer != Failed)
      ensures old(core.CrashSafe()) && !Risky(core.c, old(core.World()), call) ==> core.CrashSafe()
      ensures old(core.CrashSafe()) && core.dav.faults == old(core.dav.faults) ==>
        (Readable(core.c, DiskOf(core.World())) <==> !Risky(core.c, old(core.World()), call))
    {
      hide Core.World, Inv, Recoverable, Readable, StaleBlob, SnapshotsKept, SameContents, Updated, Fresh;
      hide CleanPaths, Performed, Contained, Lookup;
      ghost var w := core.World();
      answer := NotAsked;
      match call {
        case Put(b, k, contentType, body, id) => took := ServePut(b, k, contentType, body, id);
        case Get(b, k) => took, answer := ServeGet(b, k);
        case Delete(b, k) => took := ServeDelete(b, k);
        case Create(b, k, contentType, id) => took := ServeCreate(b, k, contentType, id);
        case UploadPart(b, k, u, n, body) => took := ServePart(b, k, u, n, body);
        case Complete(b, k, u, parts) => took := ServeComplete(b, k, u, parts);
        case Abort(b, u) => took := ServeAbort(b, u);
        case Collect => took := ServeCollect();
      }
      KeptClean(core.c, w, call, core.World());
      SafeReadable(core.c, core.World());
    }

    /**
     Serves a client's calls one after the other; those that name an upload the client has
     not opened are not sent.  The services and the plain map stay in step, and every read
     is answered from the map, unless sending a recorded part again fails: that ends the run.
     `ws` are the stores before, between and after the calls.
     */
    method ServeAll(calls: seq<Call>, m0: Model)
        returns (run: Run, taken: nat, stopped: bool, ghost ws: seq<World>, ghost risky: bool)
      requires Wired() && core.Valid() && CleanPaths(core.c.base, core.World().files) && Represents(core.World(), m0)
      requires DistinctIds(calls) && Undrawn(core.c, core.World(), m0, calls, 0)
      requires forall call :: call in calls && call.Put? && !objects.Splits(call.body) ==> call.body in core.c.bodies
      modifies core.Repr()
      ensures taken <= |calls| && Sent(m0, calls[..taken], run) && AllAgree(m0, run)
      ensures !stopped ==>
        && taken == |calls|
        && core.Valid() && CleanPaths(core.c.base, core.World().files)
        && IsRun(core.c, ws, run.calls, run.tooks, m0)
        && ws[0] == old(core.World()) && ws[|run.calls|] == core.World()
        && Represents(core.World(), Meanings(m0, run.calls, run.tooks))
      ensures stopped ==> ResendFailed(m0, run)
      ensures old(core.CrashSafe()) && !risky ==> core.CrashSafe()
      ensures core.dav.faults >= old(core.dav.faults)
      ensures core.dav.faults == old(core.dav.faults) ==> Failed !in run.answers
    {
      hide Core.World, Core.Valid, Core.CrashSafe, Performed, Represents, CleanPaths, Undrawn, Sent, AllAgree;
      hide IsRun, Meaning, Meanings, Proper, Keeps, Truthful, Agrees, Readable, Risky;
      run, stopped, risky := Run([], [], []), false, false;
      var m := m0;
      ws := [core.World()];
      NothingSent(core.c, m0, core.World());
      for i := 0 to |calls|
        invariant Wired() && core.Valid() && CleanPaths(core.c.base, core.World().files)
        invariant Undrawn(core.c, core.World(), m, calls, i) && Represents(core.World(), m)
        invariant |run.calls| == |run.tooks| == |run.answers| && m == Meanings(m0, run.calls, run.tooks)
        invariant Sent(m0, calls[..i], run) && AllAgree(m0, run)
        invariant IsRun(core.c, ws, run.calls, run.tooks, m0) && |ws| == |run.calls| + 1
        invariant ws[0] == old(core.World()) && ws[|run.calls|] == core.World()
        invariant old(core.CrashSafe()) && !risky ==> core.CrashSafe()
        invariant core.dav.faults >= old(core.dav.faults)
        invariant core.dav.faults == old(core.dav.faults) ==> Failed !in run.answers
      {
        var call := calls[i];
        ghost var w := core.World();
        assert calls[..i + 1] == calls[..i] + [call];
        if !Proper(m, call) {
          SkipOne(core.c, w, m0, m, calls, i, run);
          continue;
        }
        ReadyFor(core.c, w, m, calls, i);
        risky := risky || Risky(core.c, w, call);
        var took, answer := Serve(call);
        TruthfulAgrees(w, m, call, answer);
        SendOne(m0, calls[..i], run, call, took, answer);
        ghost var before := run;
        run := Run(run.calls + [call], run.tooks + [took], run.answers + [answer]);
        if call.UploadPart? && !took && (call.b, call.u, call.n) in m.parts {
          ResendEnds(m0, before, run, call, m);
          return run, i + 1, true, ws, risky;
        }
        NotRecorded(w, m, call, took);
        DrawOn(core.c, w, core.World(), m, calls, i, took);
        StepRepresents(core.c, w, m, call, took, core.World());
        RunGrows(core.c, ws, before, m0, call, took, core.World());
        ws := ws + [core.World()];
        m := Meaning(m, call, took);
      }
      assert calls[..|calls|] == calls;
      taken := |calls|;
    }

    method ServePut(b: string, k: string, contentType: string, body: Bytes, id: string) returns (took: bool)
      requires Wired() && core.Valid() && Fresh(core.c, core.World(), id)
      requires !objects.Splits(body) ==> body in core.c.bodies
      modifies core.Repr()
      ensures core.Valid()
      ensures Performed(core.c, old(core.World()), Put(b, k, contentType, body, id), took, core.World())
      ensures old(core.CrashSafe()) ==> core.CrashSafe()
      ensures Keeps(core.c, old(core.World()), Put(b, k, contentType, body, id), core.World())
      ensures core.dav.faults >= old(core.dav.faults)
    {
      hide Core.World, Inv, Recoverable, StaleBlob, SnapshotsKept, SameContents, Updated, Fresh, Contained, Readable;
      var r := objects.Put(b, k, contentType, body, id);
      took := Took(r);
    }

    method ServeGet(b: string, k: string) returns (took: bool, answer: Answer)
      requires Wired() && core.Valid()
      modifies core.dav`faults
      ensures core.Valid()
      ensures Truthful(old(core.World()), Get(b, k), answer)
      ensures core.dav.faults >= old(core.dav.faults) && (core.dav.faults == old(core.dav.faults) ==> answer != Failed)
      ensures Performed(core.c, old(core.World()), Get(b, k), took, core.World())
      ensures old(core.CrashSafe()) ==> core.CrashSafe()
      ensures Keeps(core.c, old(core.World()), Get(b, k), core.World())
    {
      hide Core.World, Inv, Recoverable, StaleBlob, SnapshotsKept, SameContents, Updated, Fresh, Contained, Readable;
      NotListed(core.World(), b, k);
      NothingDone(core.c, core.World());
      var r := objects.Get(b, k);
      took := false;
      if r.Ok? {
        answer := Found(r.value.1);
      } else if r.error == BucketNotFound || r.error == ObjectNotFound {
        answer := Missing;
      } else {
        answer := Failed;
      }
    }

    method ServeDelete(b: string, k: string) returns (took: bool)
      requires Wired() && core.Valid()
      modifies core.Repr()
      ensures core.Valid()
      ensures Performed(core.c, old(core.World()), Delete(b, k), took, core.World())
      ensures old(core.CrashSafe()) && !StaleBlob(old(core.World()), b, k) ==> core.CrashSafe()
      ensures Keeps(core.c, old(core.World()), Delete(b, k), core.World())
      ensures core.dav.faults >= old(core.dav.faults)
      ensures old(core.CrashSafe()) && core.dav.faults == old(core.dav.faults) ==>
        (Readable(core.c, DiskOf(core.World())) <==> !StaleBlob(old(core.World()), b, k))
    {
      hide Core.World, Inv, Recoverable, StaleBlob, SnapshotsKept, SameContents, Updated, Fresh, Contained, Readable;
      ghost var w := core.World();
      SameReflexive(w);
      var r := objects.Delete(b, k);
      took := r == Ok(()) || r == Err(SyncFailed);
    }

    method ServeCreate(b: string, k: string, contentType: string, id: string) returns (took: bool)
      requires Wired() && core.Valid() && Fresh(core.c, core.World(), id)
      modifies core.Repr()
      ensures core.Valid()
      ensures Performed(core.c, old(core.World()), Create(b, k, contentType, id), took, core.World())
      ensures old(core.CrashSafe()) ==> core.CrashSafe()
      ensures Keeps(core.c, old(core.World()), Create(b, k, contentType, id), core.World())
      ensures core.dav.faults >= old(core.dav.faults)
    {
      hide Core.World, Inv, Recoverable, StaleBlob, SnapshotsKept, SameContents, Updated, Fresh, Contained, Readable;
      ghost var w := core.World();
      var r := uploads.Create(b, k, contentType, id);
      took := r.Ok?;
      if b in w.dbs { CreateContained(core.c, w, core.World(), b, id, Upload(k, contentType)); }
      NothingDone(core.c, w);
    }

    method ServePart(b: string, k: string, u: string, n: int, body: Bytes) returns (took: bool)
      requires Wired() && core.Valid()
      modifies core.Repr()
      ensures took || !old(core.World()).HasPart(b, u, n) ==>
        Performed(core.c, old(core.World()), UploadPart(b, k, u, n, body), took, core.World()) && core.Valid()
      ensures old(core.CrashSafe()) ==> core.CrashSafe()
      ensures Keeps(core.c, old(core.World()), UploadPart(b, k, u, n, body), core.World())
      ensures core.dav.faults >= old(core.dav.faults)
    {
      hide Core.World, Inv, Recoverable, StaleBlob, SnapshotsKept, SameContents, Updated, Fresh, Performed;
      hide Contained, Readable;
      ghost var w := core.World();
      var r := uploads.UploadPart(b, k, u, n, body);
      took := r.Ok? || r.error == SyncFailed;
      NothingDone(core.c, w);
      if b in w.dbs && w.Live(b, u) {
        LiveIdPlain(core.c, w, b, u);
        PartContained(core.c, w, core.World(), b, u, n, body);
      }
      if took {
        PartPerformed(core.c, w, b, k, u, n, body, core.World());
      } else if !w.HasPart(b, u, n) {
        PartRefused(core.c, w, b, k, u, n, body, core.World());
      }
    }

    method ServeComplete(b: string, k: string, u: string, parts: seq<CompletePart>) returns (took: bool)
      requires Wired() && core.Valid() && parts != []
      modifies core.Repr()
      ensures core.Valid()
      ensures Performed(core.c, old(core.World()), Complete(b, k, u, parts), took, core.World())
      ensures old(core.CrashSafe()) ==> core.CrashSafe()
      ensures Keeps(core.c, old(core.World()), Complete(b, k, u, parts), core.World())
      ensures core.dav.faults >= old(core.dav.faults)
    {
      hide Core.World, Inv, Recoverable, StaleBlob, SnapshotsKept, SameContents, Updated, Fresh, Concat;
      hide Contained, Readable;
      ghost var w := core.World();
      SameReflexive(w);
      var r := uploads.Complete(b, k, u, parts);
      took := Took(r);
      NothingDone(core.c, w);
      if took {
        CompleteContained(core.c, w, core.World(), b, k, u, parts);
        CompletedNoParts(core.c, w, b, k, u, Completion(core.c, w.dbs[b], u, parts).value);
      }
    }

    method ServeAbort(b: string, u: string) returns (took: bool)
      requires Wired() && core.Valid()
      modifies core.Repr()
      ensures core.Valid()
      ensures Performed(core.c, old(core.World()), Abort(b, u), took, core.World())
      ensures old(core.CrashSafe()) ==> core.CrashSafe()
      ensures Keeps(core.c, old(core.World()), Abort(b, u), core.World())
      ensures core.dav.faults >= old(core.dav.faults)
    {
      hide Core.World, Inv, Recoverable, StaleBlob, SnapshotsKept, SameContents, Updated, Fresh, Contained, Readable;
      ghost var w := core.World();
      var r := uploads.Abort(b, u);
      took := r == Ok(()) || r == Err(SyncFailed);
      NothingDone(core.c, w);
      if took {
        AbortContained(core.c, w, core.World(), b, u);
        AbortedNoParts(core.c, w, core.World(), b, u);
      }
    }

    method ServeCollect() returns (took: bool)
      requires Wired() && core.Valid() && CleanPaths(core.c.base, core.World().files)
      modifies core.dav
      ensures core.Valid()
      ensures Performed(core.c, old(core.World()), Collect, took, core.World())
      ensures old(core.CrashSafe()) && SnapshotsKept(core.c, old(core.World())) ==> core.CrashSafe()
      ensures Keeps(core.c, old(core.World()), Collect, core.World())
      ensures core.dav.faults >= old(core.dav.faults)
      ensures old(core.CrashSafe()) && core.dav.faults == old(core.dav.faults) ==>
        (Readable(core.c, DiskOf(core.World())) <==> SnapshotsKept(core.c, old(core.World())))
    {
      hide Core.World, Inv, Recoverable, StaleBlob, SnapshotsKept, SameContents, Updated, Fresh, CleanPaths;
      hide Contained, Readable;
      ghost var w := core.World();
      var _ := collector.GarbageCollect();
      took := false;
      FilesOnlyGo(core.c, w, core.World());
    }
  }

  /** A new, empty database for each bucket. */
  method OpenDbs(buckets: set<string>) returns (dbs: map<string, BucketDB>)
    ensures dbs.Keys == buckets && forall b :: b in dbs ==> fresh(dbs[b]) && dbs[b].Tables() == EMPTY_TABLES
    ensures forall a, b :: a in dbs && b in dbs && a != b ==> dbs[a] != dbs[b]
  {
    hide BucketDB.Tables;
    dbs := map[];
    var left := buckets;
    while left != {}
      invariant left <= buckets && dbs.Keys == buckets - left
      invariant forall b :: b in dbs ==> fresh(dbs[b]) && dbs[b].Tables() == EMPTY_TABLES
      invariant forall a, b :: a in dbs && b in dbs && a != b ==> dbs[a] != dbs[b]
      decreases |left|
    {
      var b := Any(left);
      var db := new BucketDB();
      dbs := dbs[b := db];
      left := left - {b};
    }
  }

  method NewCore(c: Config, gated: bool, buckets: set<string>) returns (core: Core)
    requires c.Valid()
    ensures fresh(core.Repr()) && core.c == c && core.dbs.Keys == buckets && core.usage == []
    ensures core.Valid() && core.CrashSafe() && core.World().files == map[]
    ensures Represents(core.World(), Model(map[], {}, map[])) && forall b :: core.Open(b)
    ensures forall id :: '/' !in id ==> Fresh(c, core.World(), id)
  {
    hide BucketDB.Tables, Inv, Recoverable, Represents, Fresh, Readable;
    var dbs := OpenDbs(buckets);
    var dav := new WebDav();
    var gate := new Manager();
    core := new Core(c, gated, dbs, dav, gate);
    EmptyStoreRepresents(c, core.World());
    NothingStoredFresh(c, core.World());
  }

  /** The services over a location nobody has written to: all they ask of it is met. */
  method NewGateway(c: Config, gated: bool, buckets: set<string>, autoChunk: bool, threshold: int, chunkSize: int)
      returns (g: Gateway)
    requires c.Valid()
    ensures fresh(g) && fresh(g.core.Repr()) && g.Wired() && g.core.c == c && g.core.dbs.Keys == buckets
    ensures g.core.Valid() && g.core.CrashSafe() && CleanPaths(c.base, g.core.World().files)
    ensures Represents(g.core.World(), Model(map[], {}, map[])) && forall b :: g.core.Open(b)
    ensures forall id :: '/' !in id ==> Fresh(c, g.core.World(), id)
  {
    hide Core.World, Core.Valid, Core.CrashSafe, Represents, Fresh;
    var core := NewCore(c, gated, buckets);
    var mp := new MultipartService(core);
    var objects := new ObjectService(core, mp, autoChunk, threshold, chunkSize);
    var collector := new Collector(core);
    g := new Gateway(core, objects, mp, collector);
  }

  lemma NothingStoredFresh(c: Config, w: World)
    requires forall b :: b in w.dbs ==> w.dbs[b] == EMPTY_TABLES
    requires w.remote == map[]
    ensures forall id :: '/' !in id ==> Fresh(c, w, id)
  {
  }

  lemma KeptClean(c: Config, w: World, call: Call, w': World)
    requires Keeps(c, w, call, w') && CleanPaths(c.base, w.files)
    ensures CleanPaths(c.base, w'.files)
  {
    var id :=
      if call.Put? || call.Create? then call.id
      else if call.UploadPart? || call.Complete? || call.Abort? then call.u
      else "";
    assert Contained(c, w, w', id);
    CleanStays(c, w.files, w'.files);
  }

  lemma NotListed(w: World, b: string, k: string)
    ensures b !in w.dbs ==> Lookup(w, b, k) == NoSuchObject
  {
  }

  lemma FilesOnlyGo(c: Config, w: World, w': World)
    requires w'.dbs == w.dbs && w'.remote == w.remote && forall p :: p in w'.files ==> p in w.files
    ensures forall id :: Contained(c, w, w', id)
  {
    forall id ensures Contained(c, w, w', id) {
      ContainedFiles(c, w, w', id);
    }
  }

  lemma PartPerformed(c: Config, w: World, b: string, k: string, u: string, n: int, body: Bytes, w': World)
    requires Inv(c, w) && w.Live(b, u) && SameContents(w, w', {u})
    requires w' == AfterPart(c, w, b, u, n, body) || w' == AfterPart(c, w, b, u, n, body).Synced(b)
    ensures Performed(c, w, UploadPart(b, k, u, n, body), true, w')
  {
    forall b', n' | w'.HasPart(b', u, n')
      ensures if (b', n') == (b, n) then PartHolds(w', b, u, n, body) else PartUntouched(w, w', b', u, n')
    {
      if (b', n') != (b, n) {
        assert w.HasPart(b', u, n') && w.Live(b', u) && b' == b;
        if PartPath(c.base, u, n') == PartPath(c.base, u, n) { PartPathInjective(c.base, u, n, u, n'); }
      }
    }
  }

  lemma PartRefused(c: Config, w: World, b: string, k: string, u: string, n: int, body: Bytes, w': World)
    requires Inv(c, w) && SameContents(w, w', {u}) && !w.HasPart(b, u, n)
    requires w' == w || (w.Live(b, u) && w' == w.(files := RemoveTree(w.files, PartPath(c.base, u, n))))
    ensures Performed(c, w, UploadPart(b, k, u, n, body), false, w')
  {
    forall b', n' | w'.HasPart(b', u, n') ensures PartUntouched(w, w', b', u, n') {
      assert w.HasPart(b', u, n') && w.Live(b', u);
      if w' != w && Under(PartPath(c.base, u, n), PartPath(c.base, u, n')) {
        PartBelowPart(c.base, u, n, n');
      }
    }
  }

  lemma CompletedNoParts(c: Config, w: World, b: string, k: string, u: string, o: Object)
    requires Inv(c, w) && w.Live(b, u)
    ensures NoParts(AfterCompletion(w, b, k, u, o), u) && NoParts(AfterCompletion(w, b, k, u, o).Synced(b), u)
  {
    var w' := AfterCompletion(w, b, k, u, o);
    forall b', n ensures !w'.HasPart(b', u, n) && !w'.Synced(b).HasPart(b', u, n) {
      if b' in w.dbs && (u, n) in w.dbs[b'].parts {
        assert w.HasPart(b', u, n) && w.Live(b', u);
      }
    }
  }

  lemma AbortedNoParts(c: Config, w: World, w': World, b: string, u: string)
    requires Inv(c, w) && w.Live(b, u) && w'.dbs == w.dbs[b := w.dbs[b].WithoutUpload(u)]
    ensures NoParts(w', u)
  {
    forall b', n ensures !w'.HasPart(b', u, n) {
      if b' in w.dbs && (u, n) in w.dbs[b'].parts {
        assert w.HasPart(b', u, n) && w.Live(b', u);
      }
    }
  }
}
