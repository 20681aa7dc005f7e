/**
 Restoring bucket databases from their remote snapshots, and repairing corrupt snapshots
 from the local database while the bucket refuses writes.
 */
module BucketSync {
  import opened Wrappers
  import opened BucketTables
  import opened RepairManager

  /** A database file: one that passes the integrity check, or one that does not. */
  datatype File = Sound(tables: Tables) | Corrupt

  /** A bucket row of the remote structure database. */
  datatype Listed = Listed(id: string, location: string)

  datatype Error = DownloadFailed | RepairFailed(cause: Error) | LocalCorrupt | ReplaceFailed | BackupFailed
    | ExportFailed | UploadFailed | VerifyFailed

  datatype Download = Fetched(file: File) | NotFound | Failed

  // ------------------------------------------------------------ states

  /** The local databases, the snapshots on the server, and the gate, if there is one. */
  datatype State = State(local: map<string, File>, files: map<string, File>, gated: bool, statuses: map<string, Status>)
  {
    /** Whether gated writes to the bucket are refused. */
    predicate Refused(id: string) {
      id in statuses && statuses[id] != Healthy
    }

    predicate SnapshotCorrupt(id: string) {
      id in files && files[id].Corrupt?
    }

    predicate LocalIsCorrupt(id: string) {
      id in local && local[id].Corrupt?
    }

    /** The snapshot is sound and is the local database. */
    predicate UpToDate(id: string) {
      id in files && id in local && files[id].Sound? && files[id] == local[id]
    }

    /** Opening a database that is not there creates an empty one. */
    function Opened(id: string): State {
      if id in local then this else this.(local := local[id := Sound(EMPTY_TABLES)])
    }

    function Marked(id: string, status: Status): State {
      if !gated then this
      else this.(statuses := if status == Healthy then statuses - {id} else statuses[id := status])
    }

    function Published(id: string, f: File): State {
      this.(files := files[id := f])
    }
  }

  /** The sync of one bucket when nothing goes wrong on the way. */
  function BucketSynced(s: State, id: string): (State, Option<Error>) {
    if id !in s.files then (s, None)
    else if s.files[id].Corrupt? then
      var s1 := s.Opened(id);
      if s1.local[id].Corrupt? then (s1.Marked(id, Degraded), Some(RepairFailed(LocalCorrupt)))
      else (s1.Published(id, s1.local[id]).Marked(id, Healthy), None)
    else if id !in s.local then (s.(local := s.local[id := s.files[id]]), None)
    else (s, if s.local[id].Corrupt? then Some(LocalCorrupt) else None)
  }

  predicate At(b: Listed, ids: map<string, string>, target: string) {
    (if b.location in ids then ids[b.location] else b.location) == target
  }

  /** All buckets at a location, one after the other, up to the first failure. */
  function AllSynced(s: State, buckets: seq<Listed>, ids: map<string, string>, target: string): (State, Option<Error>)
    decreases |buckets|
  {
    if buckets == [] then (s, None)
    else if !At(buckets[0], ids, target) then AllSynced(s, buckets[1..], ids, target)
    else
      var (s1, failed) := BucketSynced(s, buckets[0].id);
      if failed.Some? then (s1, failed) else AllSynced(s1, buckets[1..], ids, target)
  }

  /**
   What any number of syncs respect, whatever goes wrong: a local database is never
   overwritten, and a new one is the snapshot, or empty where the snapshot is corrupt; a
   snapshot is overwritten only when it is corrupt, and only by the local database; the gate
   of a bucket moves only while its snapshot is corrupt, and opens only when the snapshot
   has become the local database.
   */
  ghost predicate Careful(s: State, s': State) {
    s'.gated == s.gated && forall id :: CarefulAt(s, s', id)
  }

  ghost predicate CarefulAt(s: State, s': State, id: string) {
    && (id in s.local ==> id in s'.local && s'.local[id] == s.local[id])
    && (id in s'.local && id !in s.local ==>
      id in s.files && s'.local[id] == if s.files[id].Sound? then s.files[id] else Sound(EMPTY_TABLES))
    && (id in s'.files <==> id in s.files)
    && (id in s.files ==> s'.files[id] == s.files[id] || (s.files[id].Corrupt? && s'.UpToDate(id)))
    && (s'.Refused(id) != s.Refused(id) ==> s.SnapshotCorrupt(id))
    && (s.Refused(id) && !s'.Refused(id) ==> s'.UpToDate(id))
  }

  lemma CarefulStart(s: State)
    ensures Careful(s, s)
  {
  }

  lemma CarefulThrough(s: State, s1: State, s2: State)
    requires Careful(s, s1) && Careful(s1, s2)
    ensures Careful(s, s2)
  {
    forall id ensures CarefulAt(s, s2, id) {
      assert CarefulAt(s, s1, id) && CarefulAt(s1, s2, id);
    }
  }

  lemma CarefulOnce(s: State, s': State, id: string)
    requires s'.gated == s.gated && CarefulAt(s, s', id)
    requires forall x :: x != id ==> Same(s, s', x)
    ensures Careful(s, s')
  {
    forall x ensures CarefulAt(s, s', x) {
      assert x != id ==> Same(s, s', x);
    }
  }

  /** Nothing about the bucket has changed. */
  ghost predicate Same(s: State, s': State, id: string) {
    && (id in s'.local <==> id in s.local) && (id in s.local ==> s'.local[id] == s.local[id])
    && (id in s'.files <==> id in s.files) && (id in s.files ==> s'.files[id] == s.files[id])
    && (id in s'.statuses <==> id in s.statuses) && (id in s.statuses ==> s'.statuses[id] == s.statuses[id])
  }

  // ------------------------------------------------------------ the engine

  /**
   The snapshots on the server.  The client used here neither retries nor checks sizes: a
   failed upload may leave a damaged file, and so may one that is reported as done.
   */
  class Snapshots {
    var files: map<string, File>
    ghost var faults: nat   // requests that went wrong, reported or not

    /** Any error may be taken for a missing file; a file that arrives is the one there. */
    method DownloadToFile(id: string) returns (r: Download)
      modifies this`faults
      ensures old(faults) <= faults
      ensures r.Fetched? ==> id in files && r.file == files[id]
      ensures faults == old(faults) ==> r == if id in files then Fetched(files[id]) else NotFound
    {
      var ok, missing := *, *;
      if ok { return if id in files then Fetched(files[id]) else NotFound; }
      faults := faults + 1;
      return if missing then NotFound else Failed;
    }

    method UploadFromFile(id: string, f: File) returns (ok: bool)
      modifies this
      ensures old(faults) <= faults
      ensures faults == old(faults) ==> ok && files == old(files)[id := f]
      ensures files == old(files)[id := f] || files == old(files)[id := Corrupt] || (files == old(files) && !ok)
    {
      ok := *;
      var whole, torn := *, *;
      if ok || torn {
        files := files[id := if whole then f else Corrupt];
      }
      if !(ok && whole) { faults := faults + 1; }
    }
  }

  class Engine {
    const remote: Snapshots
    const repair: Manager?
    var local: map<string, File>
    ghost var faults: nat   // steps on the local disk that failed

    constructor (remote: Snapshots, repair: Manager?, local: map<string, File>)
      ensures this.remote == remote && this.repair == repair && this.local == local
    {
      this.remote, this.repair, this.local := remote, repair, local;
    }

    ghost function Footprint(): set<object> {
      {this, remote} + if repair != null then {repair} else {}
    }

    ghost function Now(): State
      reads this, remote, repair
    {
      State(local, remote.files, repair != null, if repair == null then map[] else repair.statuses)
    }

    ghost function Faults(): nat
      reads this, remote
    {
      faults + remote.faults
    }

    /** A step on the local disk, which may fail. */
    method OnDisk() returns (ok: bool)
      modifies this`faults
      ensures faults == if ok then old(faults) else old(faults) + 1
    {
      ok := *;
      if !ok { faults := faults + 1; }
    }

    /**
     Replaces a corrupt snapshot by an export of the local database, and checks what
     arrived.  The gate stays as it was all the while.
     */
    method RepairRemote(id: string) returns (failed: Option<Error>)
      modifies this, remote
      ensures Faults() >= old(Faults())
      ensures local == old(local) || local == old(Now()).Opened(id).local
      ensures old(id in local && local[id].Corrupt?) ==>
        failed == Some(LocalCorrupt) && remote.files == old(remote.files)
      ensures remote.files == old(remote.files)
        || (remote.files == old(remote.files)[id := Corrupt])
        || (id in local && local[id].Sound? && remote.files == old(remote.files)[id := local[id]])
      ensures failed.None? ==> Now().UpToDate(id)
      ensures Faults() == old(Faults()) && !old(id in local && local[id].Corrupt?) ==>
        failed.None? && Now() == old(Now()).Opened(id).Published(id, local[id])
      ensures Faults() == old(Faults()) ==> local == old(Now()).Opened(id).local
    {
      var usable := OnDisk();
      if !usable { return Some(LocalCorrupt); }
      if id !in local { local := local[id := Sound(EMPTY_TABLES)]; }
      if local[id].Corrupt? { return Some(LocalCorrupt); }
      var copied := OnDisk();
      if !copied { return Some(BackupFailed); }
      var exported := ExportForRepair(id);
      if exported.None? { return Some(ExportFailed); }
      var sent := remote.UploadFromFile(id, exported.value);
      if !sent { return Some(UploadFailed); }
      var verify := remote.DownloadToFile(id);
      if !verify.Fetched? { return Some(VerifyFailed); }
      if verify.file.Corrupt? { return Some(VerifyFailed); }
      return None;
    }

    /** The normal export first, the read-only one when that finds the file malformed. */
    method ExportForRepair(id: string) returns (exported: Option<File>)
      requires id in local
      modifies this`faults
      ensures old(faults) <= faults
      ensures exported.Some? ==> exported.value == local[id]
      ensures faults == old(faults) ==> exported.Some?
    {
      var ok := OnDisk();
      if ok { return Some(local[id]); }
      var malformed := *;
      if !malformed { return None; }
      ok := OnDisk();
      return if ok then Some(local[id]) else None;
    }

    /** A corrupt snapshot: the bucket is closed for writing before the repair starts. */
    method RepairFromLocal(id: string) returns (failed: Option<Error>)
      requires Now().SnapshotCorrupt(id)
      modifies Footprint()
      ensures Faults() >= old(Faults())
      ensures Careful(old(Now()), Now()) && forall x :: x != id ==> Same(old(Now()), Now(), x)
      ensures failed.None? ==> Now().UpToDate(id) && !Now().Refused(id)
      ensures failed.Some? ==> failed.value.RepairFailed? && (repair != null ==> repair.StatusOf(id) == Degraded)
      ensures Faults() == old(Faults()) ==> (Now(), failed) == BucketSynced(old(Now()), id)
    {
      hide Careful, CarefulAt, BucketSynced, Same;
      ghost var s, n := Now(), Faults();
      if repair != null {
        var _ := repair.MarkRepairing(id, "integrity check");
      }
      assert Now() == s.Marked(id, Repairing);
      failed := RepairRemote(id);
      ghost var s2 := Now();
      assert s2.statuses == s.Marked(id, Repairing).statuses;
      RepairEnds(s, s2, id, failed);
      if Faults() == n { RepairDone(s, s2, id, failed); }
      if failed.Some? {
        if repair != null { repair.MarkDegraded(id, "repair failed"); }
        assert Now() == s2.Marked(id, Degraded);
        return Some(RepairFailed(failed.value));
      }
      if repair != null { repair.MarkHealthy(id); }
      assert Now() == s2.Marked(id, Healthy);
    }

    /** One bucket: skip, repair, keep or restore. */
    method SyncBucketDB(id: string) returns (failed: Option<Error>)
      modifies Footprint()
      ensures Faults() >= old(Faults())
      ensures Careful(old(Now()), Now()) && forall x :: x != id ==> Same(old(Now()), Now(), x)
      ensures failed.Some? && failed.value.RepairFailed? && repair != null ==> repair.StatusOf(id) == Degraded
      ensures Faults() == old(Faults()) ==> (Now(), failed) == BucketSynced(old(Now()), id)
    {
      var got := remote.DownloadToFile(id);
      if got.NotFound? { return None; }
      if got.Failed? { return Some(DownloadFailed); }
      if got.file.Corrupt? {
        failed := RepairFromLocal(id);
        return;
      }
      if id in local {
        return if local[id].Corrupt? then Some(LocalCorrupt) else None;
      }
      var replaced := OnDisk();
      if !replaced { return Some(ReplaceFailed); }
      local := local[id := got.file];
      return None;
    }

    /**
     Goes through the buckets of the remote structure database that live at the target
     location.  It stops at the first failure.
     */
    method SyncBucketDBs(buckets: seq<Listed>, ids: map<string, string>, target: string) returns (failed: Option<Error>)
      modifies Footprint()
      ensures Faults() >= old(Faults())
      ensures Careful(old(Now()), Now())
      ensures forall x :: Elsewhere(buckets, ids, target, x) ==> Same(old(Now()), Now(), x)
      ensures failed.Some? && failed.value.RepairFailed? && repair != null ==>
        exists b :: b in buckets && At(b, ids, target) && repair.StatusOf(b.id) == Degraded
      ensures Faults() == old(Faults()) ==> (Now(), failed) == AllSynced(old(Now()), buckets, ids, target)
    {
      hide Careful, BucketSynced, Same;
      ghost var s0, n0 := Now(), Faults();
      CarefulStart(s0);
      SameStart(s0);
      for i := 0 to |buckets|
        invariant Faults() >= n0 && Careful(s0, Now())
        invariant forall x :: Elsewhere(buckets, ids, target, x) ==> Same(s0, Now(), x)
        invariant Faults() == n0 ==>
          AllSynced(s0, buckets, ids, target) == AllSynced(Now(), buckets[i..], ids, target)
      {
        var b := buckets[i];
        assert buckets[i..][0] == b && buckets[i..][1..] == buckets[i + 1..];
        var localLocation := if b.location in ids then ids[b.location] else b.location;
        if localLocation != target { continue; }
        ghost var s1 := Now();
        failed := SyncBucketDB(b.id);
        CarefulThrough(s0, s1, Now());
        SameThrough(s0, s1, Now());
        if failed.Some? { return; }
      }
      return None;
    }

    /** The daemon over time, with what happens to its databases in between. */
    method Live(events: seq<Event>) returns (ghost run: seq<State>)
      modifies Footprint()
      ensures IsRun(run, events) && run[0] == old(Now()) && run[|events|] == Now()
    {
      hide Careful, Same, Happened;
      run := [Now()];
      for i := 0 to |events|
        invariant |run| == i + 1 && run[0] == old(Now()) && run[i] == Now()
        invariant forall k :: 0 <= k < i ==> Step(run[k], events[k], run[k + 1])
      {
        ghost var s := Now();
        match events[i] {
          case Sync(buckets, ids, target) =>
            var _ := SyncBucketDBs(buckets, ids, target);
          case _ =>
            Undergo(events[i]);
        }
        assert Step(s, events[i], Now());
        run := run + [Now()];
      }
    }

    method Undergo(e: Event)
      requires !e.Sync?
      modifies Footprint()
      ensures Now() == Happened(old(Now()), e)
    {
      var s := State(local, remote.files, repair != null, if repair == null then map[] else repair.statuses);
      var s' := Happened(s, e);
      local, remote.files := s'.local, s'.files;
      if repair != null { repair.statuses := s'.statuses; }
    }
  }

  /** A repair that has come this far, one way or the other, and the mark at its end. */
  lemma RepairEnds(s: State, s2: State, id: string, failed: Option<Error>)
    requires s.SnapshotCorrupt(id)
    requires s2.gated == s.gated && s2.statuses == s.Marked(id, Repairing).statuses
    requires s2.local == s.local || s2.local == s.Opened(id).local
    requires s2.files == s.files || s2.files == s.files[id := Corrupt]
      || (id in s2.local && s2.local[id].Sound? && s2.files == s.files[id := s2.local[id]])
    requires failed.None? ==> s2.UpToDate(id)
    ensures var s' := s2.Marked(id, if failed.Some? then Degraded else Healthy);
      && Careful(s, s') && (forall x :: x != id ==> Same(s, s', x))
      && (failed.None? ==> s'.UpToDate(id) && (s.gated ==> !s'.Refused(id)))
  {
    CarefulOnce(s, s2.Marked(id, if failed.Some? then Degraded else Healthy), id);
  }

  lemma RepairDone(s: State, s2: State, id: string, failed: Option<Error>)
    requires s.SnapshotCorrupt(id)
    requires s2.gated == s.gated && s2.statuses == s.Marked(id, Repairing).statuses
    requires s2.local == s.Opened(id).local
    requires s.LocalIsCorrupt(id) ==> failed == Some(LocalCorrupt) && s2.files == s.files
    requires !s.LocalIsCorrupt(id) ==> failed.None? && s2.files == s.files[id := s2.local[id]]
    ensures BucketSynced(s, id) ==
      if failed.Some? then (s2.Marked(id, Degraded), Some(RepairFailed(failed.value)))
      else (s2.Marked(id, Healthy), None)
  {
    var st := s.statuses;
    assert st[id := Repairing][id := Degraded] == st[id := Degraded] && st[id := Repairing] - {id} == st - {id};
  }

  ghost predicate Elsewhere(buckets: seq<Listed>, ids: map<string, string>, target: string, id: string) {
    forall b :: b in buckets && At(b, ids, target) ==> b.id != id
  }

  lemma SameStart(s: State)
    ensures forall x :: Same(s, s, x)
  {
  }

  lemma SameThrough(s: State, s1: State, s2: State)
    ensures forall x :: Same(s, s1, x) && Same(s1, s2, x) ==> Same(s, s2, x)
  {
  }

  // ------------------------------------------------------------ a sync without faults

  lemma SyncIsCareful(s: State, id: string)
    ensures Careful(s, BucketSynced(s, id).0) && forall x :: x != id ==> Same(s, BucketSynced(s, id).0, x)
  {
    CarefulOnce(s, BucketSynced(s, id).0, id);
  }

  ghost predicate AllUsable(s: State, buckets: seq<Listed>, ids: map<string, string>, target: string) {
    forall b :: b in buckets && At(b, ids, target) && b.id in s.files ==> !s.LocalIsCorrupt(b.id)
  }

  /** A sync fails exactly on a corrupt local database whose bucket has a snapshot. */
  lemma {:induction false} SyncSucceedsIff(s: State, buckets: seq<Listed>, ids: map<string, string>, target: string)
    ensures Careful(s, AllSynced(s, buckets, ids, target).0)
    ensures AllSynced(s, buckets, ids, target).1.None? <==> AllUsable(s, buckets, ids, target)
    decreases |buckets|
  {
    hide Careful, BucketSynced, Same;
    CarefulStart(s);
    if buckets != [] {
      var b := buckets[0];
      assert buckets == [b] + buckets[1..];
      if At(b, ids, target) {
        var (s1, failed) := BucketSynced(s, b.id);
        SyncIsCareful(s, b.id);
        SyncFailsIff(s, b.id);
        UsableAlike(s, s1);
        SyncSucceedsIff(s1, buckets[1..], ids, target);
        CarefulThrough(s, s1, AllSynced(s1, buckets[1..], ids, target).0);
        assert AllUsable(s1, buckets[1..], ids, target) <==> AllUsable(s, buckets[1..], ids, target);
      } else {
        SyncSucceedsIff(s, buckets[1..], ids, target);
      }
    }
  }

  lemma SyncFailsIff(s: State, id: string)
    ensures BucketSynced(s, id).1.Some? <==> id in s.files && s.LocalIsCorrupt(id)
  {
  }

  lemma UsableAlike(s: State, s': State)
    requires Careful(s, s')
    ensures forall id :: (id in s'.files <==> id in s.files) && (s'.LocalIsCorrupt(id) <==> s.LocalIsCorrupt(id))
  {
    forall id ensures (id in s'.files <==> id in s.files) && (s'.LocalIsCorrupt(id) <==> s.LocalIsCorrupt(id)) {
      assert CarefulAt(s, s', id);
    }
  }

  /** The snapshot, if there is one, is sound, and so is the local database. */
  ghost predicate InOrderAt(s: State, id: string) {
    id in s.files ==> s.files[id].Sound? && id in s.local && s.local[id].Sound?
  }

  ghost predicate InOrder(s: State, buckets: seq<Listed>, ids: map<string, string>, target: string) {
    forall b :: b in buckets && At(b, ids, target) ==> InOrderAt(s, b.id)
  }

  /** What a successful sync owes to a bucket. */
  ghost predicate Recovered(s: State, s': State, id: string) {
    InOrderAt(s', id) && (s.SnapshotCorrupt(id) ==> s'.UpToDate(id) && (s.gated ==> !s'.Refused(id)))
  }

  lemma RecoveredFirst(s: State, s': State, id: string)
    requires BucketSynced(s, id).1.None? && Careful(BucketSynced(s, id).0, s')
    ensures Recovered(s, s', id)
  {
    hide Careful;
    var s1 := BucketSynced(s, id).0;
    assert CarefulAt(s1, s', id) by { CarefulHere(s1, s', id); }
  }

  lemma CarefulHere(s: State, s': State, id: string)
    requires Careful(s, s')
    ensures s'.gated == s.gated && CarefulAt(s, s', id)
  {
  }

  lemma RecoveredLater(s: State, s1: State, s': State, id: string)
    requires s1.gated == s.gated && Same(s, s1, id) && Recovered(s1, s', id)
    ensures Recovered(s, s', id)
  {
  }

  /** A sync that succeeds leaves no corrupt snapshot behind, and no bucket closed that had one. */
  lemma {:induction false} SyncSettles(s: State, buckets: seq<Listed>, ids: map<string, string>, target: string)
    requires AllSynced(s, buckets, ids, target).1.None?
    ensures var s' := AllSynced(s, buckets, ids, target).0;
      InOrder(s', buckets, ids, target)
      && forall b :: b in buckets && At(b, ids, target) ==> Recovered(s, s', b.id)
    decreases |buckets|
  {
    hide Careful, BucketSynced, Same, Recovered, InOrderAt;
    var s' := AllSynced(s, buckets, ids, target).0;
    if buckets != [] {
      var c := buckets[0];
      assert buckets == [c] + buckets[1..];
      if At(c, ids, target) {
        var s1 := BucketSynced(s, c.id).0;
        SyncIsCareful(s, c.id);
        SyncSettles(s1, buckets[1..], ids, target);
        SyncSucceedsIff(s1, buckets[1..], ids, target);
        RecoveredFirst(s, s', c.id);
        forall b | b in buckets && At(b, ids, target) ensures Recovered(s, s', b.id) {
          if b.id != c.id {
            CarefulHere(s, s1, b.id);
            RecoveredLater(s, s1, s', b.id);
          }
        }
      } else {
        SyncSettles(s, buckets[1..], ids, target);
      }
    }
    forall b | b in buckets && At(b, ids, target) ensures InOrderAt(s', b.id) {
      assert Recovered(s, s', b.id);
      RecoveredIsInOrder(s, s', b.id);
    }
  }

  lemma RecoveredIsInOrder(s: State, s': State, id: string)
    requires Recovered(s, s', id)
    ensures InOrderAt(s', id)
  {
  }

  /** A sync succeeds and changes nothing exactly when everything is in order. */
  lemma {:induction false} NothingToSyncIff(s: State, buckets: seq<Listed>, ids: map<string, string>, target: string)
    ensures AllSynced(s, buckets, ids, target) == (s, None) <==> InOrder(s, buckets, ids, target)
    decreases |buckets|
  {
    hide BucketSynced;
    if AllSynced(s, buckets, ids, target) == (s, None) {
      SyncSettles(s, buckets, ids, target);
    }
    if InOrder(s, buckets, ids, target) && buckets != [] {
      assert buckets == [buckets[0]] + buckets[1..];
      if At(buckets[0], ids, target) { NothingAt(s, buckets[0].id); }
      NothingToSyncIff(s, buckets[1..], ids, target);
    }
  }

  lemma NothingAt(s: State, id: string)
    requires InOrderAt(s, id)
    ensures BucketSynced(s, id) == (s, None)
  {
  }

  /** A second sync has nothing left to do. */
  lemma SyncTwice(s: State, buckets: seq<Listed>, ids: map<string, string>, target: string)
    requires AllUsable(s, buckets, ids, target)
    ensures var s' := AllSynced(s, buckets, ids, target).0;
      AllSynced(s', buckets, ids, target) == (s', None)
  {
    SyncSucceedsIff(s, buckets, ids, target);
    SyncSettles(s, buckets, ids, target);
    NothingToSyncIff(AllSynced(s, buckets, ids, target).0, buckets, ids, target);
  }

  /** Buckets that are not listed for the location are not touched. */
  lemma {:induction false} SyncLeaves(s: State, buckets: seq<Listed>, ids: map<string, string>, target: string,
                                      id: string)
    requires Elsewhere(buckets, ids, target, id)
    ensures Same(s, AllSynced(s, buckets, ids, target).0, id)
    decreases |buckets|
  {
    hide Same, BucketSynced;
    SameStart(s);
    if buckets != [] {
      var b := buckets[0];
      assert b in buckets && forall x :: x in buckets[1..] ==> x in buckets;
      if At(b, ids, target) {
        var (s1, failed) := BucketSynced(s, b.id);
        SyncIsCareful(s, b.id);
        SyncLeaves(s1, buckets[1..], ids, target, id);
        SameThrough(s, s1, AllSynced(s1, buckets[1..], ids, target).0);
      } else {
        SyncLeaves(s, buckets[1..], ids, target, id);
      }
    }
  }

  /**
   A sync that succeeds opens a closed bucket exactly when it is listed for the location and
   its snapshot is corrupt: one that a failed write has closed while its snapshot stayed
   sound is not opened.  Without a local database it is an empty one that is published.
   */
  lemma ReopensIff(s: State, buckets: seq<Listed>, ids: map<string, string>, target: string, id: string)
    requires s.gated && s.Refused(id) && AllUsable(s, buckets, ids, target)
    ensures var s' := AllSynced(s, buckets, ids, target).0;
      && (!s'.Refused(id) <==> s.SnapshotCorrupt(id) && !Elsewhere(buckets, ids, target, id))
      && (!s'.Refused(id) ==>
        id in s'.files && s'.files[id] == if id in s.local then s.local[id] else Sound(EMPTY_TABLES))
  {
    hide AllSynced;
    var s' := AllSynced(s, buckets, ids, target).0;
    SyncSucceedsIff(s, buckets, ids, target);
    SyncSettles(s, buckets, ids, target);
    CarefulHere(s, s', id);
    if Elsewhere(buckets, ids, target, id) {
      SyncLeaves(s, buckets, ids, target, id);
    } else {
      var b :| b in buckets && At(b, ids, target) && b.id == id;
      assert Recovered(s, s', b.id);
    }
  }

  // ------------------------------------------------------------ a daemon over time

  /** What reaches the server of an upload. */
  datatype Arrival = Whole | Torn | Nothing

  datatype Event =
    | Sync(buckets: seq<Listed>, ids: map<string, string>, target: string)
    | Read(bucket: string)
    // a write that leaves these tables; their upload is reported as done or as failed
    | Write(bucket: string, tables: Tables, reported: bool, arrives: Arrival)
    | Delete(bucket: string, key: string, arrives: Arrival)
    | Flush(bucket: string, arrives: Arrival)
    // another daemon, or chance, replaces or removes the snapshot
    | ServerChange(bucket: string, file: Option<File>)
    | LocalDamage(bucket: string)

  /** An upload of the local database. */
  function Uploaded(s: State, id: string, arrives: Arrival): (r: State)
    requires id in s.local
    ensures r == s.(files := r.files) && forall x :: x != id ==> (r.SnapshotCorrupt(x) <==> s.SnapshotCorrupt(x))
    ensures arrives != Torn && s.local[id].Sound? && !s.SnapshotCorrupt(id) ==> !r.SnapshotCorrupt(id)
  {
    match arrives
    case Whole => s.Published(id, s.local[id])
    case Torn => s.Published(id, Corrupt)
    case Nothing => s
  }

  /** A write whose upload fails closes the bucket; deletions neither ask the gate nor move it. */
  function Happened(s: State, e: Event): State
    requires !e.Sync?
  {
    match e
    case Read(id) => s.Opened(id)
    case Write(id, tables, reported, arrives) =>
      if s.Refused(id) || s.Opened(id).local[id].Corrupt? then s
      else
        var s1 := Uploaded(s.(local := s.local[id := Sound(tables)]), id, arrives);
        if reported && arrives != Nothing then s1 else s1.Marked(id, Repairing)
    case Delete(id, key, arrives) =>
      var f := s.Opened(id).local[id];
      if f.Corrupt? || key !in f.tables.objects then s.Opened(id)
      else Uploaded(s.(local := s.local[id := Sound(f.tables.WithoutObject(key))]), id, arrives)
    case Flush(id, arrives) => if id in s.local && s.local[id].Sound? then Uploaded(s, id, arrives) else s
    case ServerChange(id, f) =>
      s.(files := if f.Some? then s.files[id := f.value] else s.files - {id})
    case LocalDamage(id) => if id in s.local then s.(local := s.local[id := Corrupt]) else s
  }

  ghost predicate Step(s: State, e: Event, s': State) {
    match e
    case Sync(buckets, ids, target) =>
      Careful(s, s') && forall x :: Elsewhere(buckets, ids, target, x) ==> Same(s, s', x)
    case _ => s' == Happened(s, e)
  }

  ghost predicate IsRun(run: seq<State>, events: seq<Event>) {
    && |run| == |events| + 1
    && forall k :: 0 <= k < |events| ==> Step(run[k], events[k], run[k + 1])
  }

  /** The bucket is closed from one moment to another. */
  ghost predicate Closed(run: seq<State>, id: string, i: nat, j: nat) {
    forall k :: i <= k <= j && k < |run| ==> run[k].Refused(id)
  }

  function DeletedKeys(events: seq<Event>, id: string, i: nat, j: nat): set<string>
    requires i <= j <= |events|
  {
    set k | i <= k < j && events[k].Delete? && events[k].bucket == id :: events[k].key
  }

  /** A database that has lost these keys, or is damaged. */
  ghost predicate Reduced(f: File, f': File, keys: set<string>) {
    f'.Sound? ==> f.Sound? && f'.tables == f.tables.(objects := f.tables.objects - keys)
  }

  /** What a single step can do to a closed bucket. */
  lemma ClosedStep(s: State, e: Event, s': State, id: string)
    requires Step(s, e, s') && s.Refused(id) && id in s.local
    ensures id in s'.local
    ensures Reduced(s.local[id], s'.local[id], if e.Delete? && e.bucket == id then {e.key} else {})
    ensures !s'.Refused(id) ==> e.Sync? && s.SnapshotCorrupt(id) && s'.UpToDate(id)
  {
    hide Happened, CarefulAt;
    if e.Sync? {
      CarefulHere(s, s', id);
    } else {
      ClosedHappened(s, e, id);
    }
  }

  lemma ClosedHappened(s: State, e: Event, id: string)
    requires !e.Sync? && s.Refused(id) && id in s.local
    ensures var s' := Happened(s, e);
      && id in s'.local && s'.Refused(id)
      && Reduced(s.local[id], s'.local[id], if e.Delete? && e.bucket == id then {e.key} else {})
  {
    hide Reduced, Uploaded;
    Unreduced(s.local[id]);
    Damaged(s.local[id]);
    if e.Delete? { OneDeleted(s.local[id], e.key); }
  }

  lemma Damaged(f: File)
    ensures Reduced(f, Corrupt, {})
  {
  }

  lemma OneDeleted(f: File, key: string)
    ensures f.Sound? && key in f.tables.objects ==> Reduced(f, Sound(f.tables.WithoutObject(key)), {key})
    ensures f.Corrupt? || key !in f.tables.objects ==> Reduced(f, f, {key})
  {
    if f.Sound? && key !in f.tables.objects { assert f.tables.objects - {key} == f.tables.objects; }
  }

  lemma ReducedMore(f: File, f1: File, f2: File, keys: set<string>, more: set<string>)
    requires Reduced(f, f1, keys) && Reduced(f1, f2, more)
    ensures Reduced(f, f2, keys + more)
  {
    if f2.Sound? {
      assert f.tables.objects - keys - more == f.tables.objects - (keys + more);
    }
  }

  /** While a bucket is closed, its local database changes only by deletions and damage. */
  lemma {:induction false} ClosedKeepsLocal(run: seq<State>, events: seq<Event>, id: string, i: nat, j: nat)
    requires IsRun(run, events) && i <= j <= |events|
    requires Closed(run, id, i, j) && id in run[i].local
    ensures id in run[j].local && Reduced(run[i].local[id], run[j].local[id], DeletedKeys(events, id, i, j))
    decreases j
  {
    hide Step, Reduced;
    if i < j {
      var e := events[j - 1];
      var more := if e.Delete? && e.bucket == id then {e.key} else {};
      ClosedKeepsLocal(run, events, id, i, j - 1);
      ClosedStep(run[j - 1], e, run[j], id);
      ReducedMore(run[i].local[id], run[j - 1].local[id], run[j].local[id], DeletedKeys(events, id, i, j - 1), more);
      assert DeletedKeys(events, id, i, j) == DeletedKeys(events, id, i, j - 1) + more;
    } else {
      assert DeletedKeys(events, id, i, j) == {};
      Unreduced(run[i].local[id]);
    }
  }

  lemma Unreduced(f: File)
    ensures Reduced(f, f, {})
  {
    assert f.Sound? ==> f.tables.objects - {} == f.tables.objects;
  }

  /**
   A bucket that opens again has a sound snapshot, and that is the local database as it was
   when the bucket was closed, less what has been deleted: no write accepted before is lost,
   and none came in between.
   */
  lemma ReopenedComplete(run: seq<State>, events: seq<Event>, id: string, i: nat, j: nat)
    requires IsRun(run, events) && i <= j < |events|
    requires Closed(run, id, i, j) && !run[j + 1].Refused(id) && id in run[i].local
    ensures events[j].Sync? && run[j].SnapshotCorrupt(id) && run[j + 1].UpToDate(id)
    ensures Reduced(run[i].local[id], run[j + 1].files[id], DeletedKeys(events, id, i, j))
  {
    hide Reduced;
    ClosedKeepsLocal(run, events, id, i, j);
    ClosedStep(run[j], events[j], run[j + 1], id);
    CarefulHere(run[j], run[j + 1], id);
  }

  /** The snapshot may become corrupt. */
  predicate Tears(e: Event, id: string) {
    match e
    case Delete(b, _, arrives) => b == id && arrives == Torn
    case Flush(b, arrives) => b == id && arrives == Torn
    case ServerChange(b, f) => b == id && f == Some(Corrupt)
    case _ => false
  }

  lemma StaysClosedStep(s: State, e: Event, s': State, id: string)
    requires Step(s, e, s') && s.Refused(id) && !s.SnapshotCorrupt(id) && !Tears(e, id)
    ensures s'.Refused(id) && !s'.SnapshotCorrupt(id)
  {
    if e.Sync? {
      hide Happened;
      CarefulHere(s, s', id);
    } else {
      hide Careful, CarefulAt, Same;
      if e.Delete? || e.Flush? || e.Write? {
        assert e.bucket == id || (s'.SnapshotCorrupt(id) <==> s.SnapshotCorrupt(id));
      }
    }
  }

  /** A closed bucket stays closed until something makes its snapshot corrupt. */
  lemma {:induction false} StaysClosed(run: seq<State>, events: seq<Event>, id: string, i: nat, j: nat)
    requires IsRun(run, events) && i <= j <= |events|
    requires run[i].Refused(id) && !run[i].SnapshotCorrupt(id)
    requires forall k :: i <= k < j ==> !Tears(events[k], id)
    ensures Closed(run, id, i, j) && !run[j].SnapshotCorrupt(id)
    decreases j
  {
    hide Step;
    if i < j {
      StaysClosed(run, events, id, i, j - 1);
      StaysClosedStep(run[j - 1], events[j - 1], run[j], id);
    }
  }
}
