/**
 The table of locations, users and buckets that daemons share, and the import of another
 daemon's copy of it: local records win, and location ids are translated.
 */
module StructureMerge {
  import opened GoStrings
  import opened Collections
  import opened Wrappers

  /** `account` stands for the columns a merge only copies. */
  datatype Location = Location(
    id: string, url: string, username: string, baseDir: string, created: int, account: string)

  /** `profile` stands for the hashes, encrypted secrets, name and flag of a user. */
  datatype User = User(id: string, accessKey: string, profile: string)

  datatype Bucket = Bucket(id: string, name: string, owner: string, location: string)

  datatype Error = LocationExists | UserConflict | BucketConflict

  // ------------------------------------------------------------ the database

  /** Where a row comes in a listing ordered by time: after those as old. */
  function Placed(loc: Location, locs: seq<Location>): seq<Location> {
    if locs == [] || loc.created < locs[0].created then [loc] + locs
    else [locs[0]] + Placed(loc, locs[1..])
  }

  function NormalizeBaseDir(input: string): string {
    var s := TrimSpace(input);
    if s == "" || s == "/" then "/"
    else
      var t := if s[0] == '/' then s else "/" + s;
      if t[|t| - 1] == '/' then t else t + "/"
  }

  function Normalized(loc: Location): Location {
    loc.(baseDir := NormalizeBaseDir(loc.baseDir))
  }

  ghost predicate DistinctIds(locs: seq<Location>) {
    forall i, j :: 0 <= i < j < |locs| ==> locs[i].id != locs[j].id
  }

  ghost predicate HasId(locs: seq<Location>, id: string) {
    exists l :: l in locs && l.id == id
  }

  ghost predicate UsersSound(users: map<string, User>) {
    && (forall id :: id in users ==> users[id].id == id)
    && (forall a, b :: a in users && b in users && users[a].accessKey == users[b].accessKey ==> a == b)
  }

  ghost predicate BucketsSound(buckets: map<string, Bucket>) {
    && (forall n :: n in buckets ==> buckets[n].name == n)
    && (forall a, b :: a in buckets && b in buckets && buckets[a].id == buckets[b].id ==> a == b)
  }

  class StructureDB {
    var locations: seq<Location>         // in the order listings give them
    var users: map<string, User>         // by id; access keys are unique
    var buckets: map<string, Bucket>     // by name; ids are unique

    ghost predicate Valid()
      reads this
    {
      DistinctIds(locations) && UsersSound(users) && BucketsSound(buckets)
    }

    constructor ()
      ensures Valid() && locations == [] && users == map[] && buckets == map[]
    {
      locations, users, buckets := [], map[], map[];
    }

    method HasLocation(id: string) returns (found: bool)
      ensures found <==> HasId(locations, id)
    {
      found := false;
      for i := 0 to |locations|
        invariant !found && forall j :: 0 <= j < i ==> locations[j].id != id
      {
        if locations[i].id == id {
          assert locations[i] in locations;
          return true;
        }
      }
    }

    method AddLocation(loc: Location) returns (ok: bool)
      requires Valid()
      modifies `locations
      ensures Valid()
      ensures ok <==> !HasId(old(locations), loc.id)
      ensures locations == if ok then Placed(Normalized(loc), old(locations)) else old(locations)
    {
      var found := HasLocation(loc.id);
      if found { return false; }
      PlacedFacts(Normalized(loc), locations);
      PlacedDistinct(Normalized(loc), locations);
      locations := Placed(Normalized(loc), locations);
      return true;
    }

    /** Refused when the id or the access key is taken. */
    method AddUser(u: User) returns (ok: bool)
      requires Valid()
      modifies `users
      ensures Valid()
      ensures ok <==> u.id !in old(users) && forall id :: id in old(users) ==> old(users)[id].accessKey != u.accessKey
      ensures users == if ok then old(users)[u.id := u] else old(users)
    {
      if u.id in users || exists id | id in users :: users[id].accessKey == u.accessKey {
        return false;
      }
      users := users[u.id := u];
      return true;
    }

    /** Refused when the name or the id is taken. */
    method AddBucket(b: Bucket) returns (ok: bool)
      requires Valid()
      modifies `buckets
      ensures Valid()
      ensures ok <==> b.name !in old(buckets) && forall n :: n in old(buckets) ==> old(buckets)[n].id != b.id
      ensures buckets == if ok then old(buckets)[b.name := b] else old(buckets)
    {
      if b.name in buckets || exists n | n in buckets :: buckets[n].id == b.id {
        return false;
      }
      buckets := buckets[b.name := b];
      return true;
    }

    /** Owner and location are what an update can change. */
    method UpdateBucket(b: Bucket)
      requires Valid() && b.name in buckets && b.id == buckets[b.name].id
      modifies `buckets
      ensures Valid()
      ensures buckets == old(buckets)[b.name := b]
    {
      buckets := buckets[b.name := buckets[b.name].(owner := b.owner, location := b.location)];
    }
  }

  lemma {:induction false} PlacedFacts(loc: Location, locs: seq<Location>)
    ensures forall l :: l in Placed(loc, locs) <==> l == loc || l in locs
  {
    if locs != [] && loc.created >= locs[0].created {
      PlacedFacts(loc, locs[1..]);
      assert locs == [locs[0]] + locs[1..];
    }
  }

  lemma {:induction false} PlacedDistinct(loc: Location, locs: seq<Location>)
    requires DistinctIds(locs) && !HasId(locs, loc.id)
    ensures DistinctIds(Placed(loc, locs))
  {
    if locs == [] || loc.created < locs[0].created {
      assert forall i :: 0 <= i < |locs| ==> locs[i] in locs;
    } else {
      var rest := locs[1..];
      assert locs == [locs[0]] + rest;
      assert locs[0] in locs;
      PlacedDistinct(loc, rest);
      PlacedFacts(loc, rest);
      var r := Placed(loc, rest);
      forall i | 0 <= i < |r| ensures r[i].id != locs[0].id {
        assert r[i] in r;
        if r[i] in rest {
          var k :| 0 <= k < |rest| && rest[k] == r[i];
          assert locs[k + 1].id != locs[0].id;
        }
      }
    }
  }

  // ------------------------------------------------------------ endpoints

  function TrimRightSlash(s: string): string {
    if s != [] && s[|s| - 1] == '/' then TrimRightSlash(s[..|s| - 1]) else s
  }

  predicate SameEndpoint(a: Location, b: Location) {
    TrimRightSlash(a.url) == TrimRightSlash(b.url) && a.username == b.username
  }

  /** The first listed location with the endpoint. */
  function FirstMatch(locs: seq<Location>, loc: Location): (r: Option<string>)
    ensures r.Some? ==> exists l :: l in locs && l.id == r.value && SameEndpoint(l, loc)
    ensures r.None? ==> forall l :: l in locs ==> !SameEndpoint(l, loc)
  {
    if locs == [] then None
    else
      assert locs == [locs[0]] + locs[1..];
      if SameEndpoint(locs[0], loc) then Some(locs[0].id) else FirstMatch(locs[1..], loc)
  }

  method FindMatchingLocation(locs: seq<Location>, loc: Location) returns (r: Option<string>)
    ensures r == FirstMatch(locs, loc)
  {
    for i := 0 to |locs|
      invariant FirstMatch(locs, loc) == FirstMatch(locs[i..], loc)
    {
      assert locs[i..][1..] == locs[i + 1..];
      if SameEndpoint(locs[i], loc) { return Some(locs[i].id); }
    }
    return None;
  }

  // ------------------------------------------------------------ what a merge means

  /** The local id of a remote location, from the locations known before the merge. */
  function MappedId(local: seq<Location>, target: Location, loc: Location): string {
    if SameEndpoint(target, loc) then target.id
    else
      var found := FirstMatch(local, loc);
      if found.Some? then found.value else loc.id
  }

  /** Remote locations that no known endpoint matches, and whose id is free, are imported. */
  ghost function MergedLocations(local: seq<Location>, target: Location, remote: seq<Location>): seq<Location> {
    if remote == [] then local
    else
      var before := MergedLocations(local, target, remote[..|remote| - 1]);
      var loc := remote[|remote| - 1];
      if SameEndpoint(target, loc) || FirstMatch(local, loc).Some? || HasId(before, loc.id) then before
      else Placed(Normalized(loc), before)
  }

  function IdMap(local: seq<Location>, target: Location, remote: seq<Location>): map<string, string> {
    if remote == [] then map[]
    else
      var loc := remote[|remote| - 1];
      IdMap(local, target, remote[..|remote| - 1])[loc.id := MappedId(local, target, loc)]
  }

  function Translate(ids: map<string, string>, id: string): string {
    if id in ids then ids[id] else id
  }

  function MergedBucket(local: map<string, Bucket>, ids: map<string, string>, b: Bucket): Bucket {
    (if b.name in local then local[b.name] else b).(location := Translate(ids, b.location))
  }

  /** The buckets after these remote names have been merged. */
  function MergedBuckets(local: map<string, Bucket>, remote: map<string, Bucket>,
                         ids: map<string, string>): map<string, Bucket> {
    map n | n in local.Keys + remote.Keys ::
      if n in remote then MergedBucket(local, ids, remote[n]) else local[n]
  }

  /** A user that is new here has an access key that is taken here. */
  ghost predicate UsersClash(local: map<string, User>, remote: map<string, User>) {
    exists r, l :: r in remote && r !in local && l in local && local[l].accessKey == remote[r].accessKey
  }

  /** A bucket name that is new here has an id that is taken here. */
  ghost predicate BucketsClash(local: map<string, Bucket>, remote: map<string, Bucket>) {
    exists r, l :: r in remote && r !in local && l in local && local[l].id == remote[r].id
  }

  /** Whatever happens, local records stay; a bucket can change its location id only. */
  ghost predicate LocalKept(locations: seq<Location>, users: map<string, User>, buckets: map<string, Bucket>,
                            locations': seq<Location>, users': map<string, User>, buckets': map<string, Bucket>) {
    && (forall l :: l in locations ==> l in locations')
    && (forall id :: id in users ==> id in users' && users'[id] == users[id])
    && (forall n :: n in buckets ==> n in buckets' && buckets'[n] == buckets[n].(location := buckets'[n].location))
  }

  // ------------------------------------------------------------ the merge

  class Engine {
    const structure: StructureDB

    constructor (structure: StructureDB)
      ensures this.structure == structure
    {
      this.structure := structure;
    }

    /**
     Imports what the remote database has and the local one lacks.  It fails exactly when
     a new user or bucket breaks one of the local uniqueness rules.
     */
    method MergeStructure(remote: StructureDB, target: Location) returns (r: Result<map<string, string>, Error>)
      requires structure.Valid() && remote.Valid() && remote != structure
      modifies structure
      ensures structure.Valid()
      ensures LocalKept(old(structure.locations), old(structure.users), old(structure.buckets),
                        structure.locations, structure.users, structure.buckets)
      ensures structure.locations == MergedLocations(old(structure.locations), target, remote.locations)
      ensures r == Err(UserConflict) <==> UsersClash(old(structure.users), remote.users)
      ensures r == Err(BucketConflict) <==>
        !UsersClash(old(structure.users), remote.users) && BucketsClash(old(structure.buckets), remote.buckets)
      ensures r.Err? ==> r.error != LocationExists
      ensures r.Ok? ==>
        && r.value == IdMap(old(structure.locations), target, remote.locations)
        && structure.users == remote.users + old(structure.users)
        && structure.buckets == MergedBuckets(old(structure.buckets), remote.buckets, r.value)
    {
      hide MergedLocations, IdMap, MergedBuckets, UsersClash, BucketsClash, LocalKept;
      ghost var locs0, users0, buckets0 := structure.locations, structure.users, structure.buckets;
      var ids := MergeLocations(remote, target);
      LocationsKept(locs0, target, remote.locations);
      var failed := MergeUsers(remote);
      AllKept(locs0, users0, buckets0, structure.locations, structure.users, structure.buckets);
      if failed.Some? {
        return Err(failed.value);
      }
      failed := MergeBuckets(remote, ids);
      AllKept(locs0, users0, buckets0, structure.locations, structure.users, structure.buckets);
      if failed.Some? {
        return Err(failed.value);
      }
      return Ok(ids);
    }

    method MergeLocations(remote: StructureDB, target: Location) returns (ids: map<string, string>)
      requires structure.Valid() && remote.Valid() && remote != structure
      modifies structure`locations
      ensures structure.Valid()
      ensures structure.locations == MergedLocations(old(structure.locations), target, remote.locations)
      ensures ids == IdMap(old(structure.locations), target, remote.locations)
    {
      hide Normalized, SameEndpoint, Placed, FirstMatch, HasId, DistinctIds, UsersSound, BucketsSound;
      var localLocs := structure.locations;
      var remoteLocs := remote.locations;
      ids := map[];
      for i := 0 to |remoteLocs|
        invariant structure.Valid()
        invariant structure.locations == MergedLocations(localLocs, target, remoteLocs[..i])
        invariant ids == IdMap(localLocs, target, remoteLocs[..i])
      {
        var loc := remoteLocs[i];
        assert remoteLocs[..i + 1][..i] == remoteLocs[..i];
        if SameEndpoint(target, loc) {
          ids := ids[loc.id := target.id];
          continue;
        }
        var found := FindMatchingLocation(localLocs, loc);
        if found.Some? {
          ids := ids[loc.id := found.value];
          continue;
        }
        var known := structure.HasLocation(loc.id);
        if !known {
          var ok := structure.AddLocation(loc);
        }
        ids := ids[loc.id := loc.id];
      }
      assert remoteLocs[..|remoteLocs|] == remoteLocs;
    }

    /** A user whose id is known is not looked at; the first one refused ends the merge. */
    method MergeUsers(remote: StructureDB) returns (failed: Option<Error>)
      requires structure.Valid() && remote.Valid() && remote != structure
      modifies structure`users
      ensures structure.Valid()
      ensures failed == if UsersClash(old(structure.users), remote.users) then Some(UserConflict) else None
      ensures failed.None? ==> structure.users == remote.users + old(structure.users)
      ensures forall id :: id in old(structure.users) ==>
        id in structure.users && structure.users[id] == old(structure.users)[id]
    {
      hide UsersSoFar, UsersClash, UsersSound, BucketsSound, DistinctIds;
      ghost var users0 := structure.users;
      var left := remote.users.Keys;
      UsersStart(users0, remote.users);
      while left != {}
        invariant structure.Valid() && left <= remote.users.Keys
        invariant UsersSoFar(users0, remote.users, left, structure.users)
        decreases |left|
      {
        var id := Any(left);
        var u := remote.users[id];
        UserIds(remote.users, id);
        UsersNext(users0, remote.users, left, id, structure.users);
        left := left - {id};
        if id !in structure.users {
          var ok := structure.AddUser(u);
          if !ok {
            return Some(UserConflict);
          }
        }
      }
      UsersDone(users0, remote.users, structure.users);
      return None;
    }

    /** A bucket whose name is known gets the translated location; others are imported. */
    method MergeBuckets(remote: StructureDB, ids: map<string, string>) returns (failed: Option<Error>)
      requires structure.Valid() && remote.Valid() && remote != structure
      modifies structure`buckets
      ensures structure.Valid()
      ensures failed == if BucketsClash(old(structure.buckets), remote.buckets) then Some(BucketConflict) else None
      ensures failed.None? ==> structure.buckets == MergedBuckets(old(structure.buckets), remote.buckets, ids)
      ensures forall n :: n in old(structure.buckets) ==>
        n in structure.buckets
        && structure.buckets[n] == old(structure.buckets)[n].(location := structure.buckets[n].location)
    {
      hide BucketsSoFar, BucketsClash, UsersSound, BucketsSound, DistinctIds, MergedBucket, MergedBuckets;
      ghost var buckets0 := structure.buckets;
      var left := remote.buckets.Keys;
      BucketsStart(buckets0, remote.buckets, ids);
      while left != {}
        invariant structure.Valid() && left <= remote.buckets.Keys
        invariant BucketsSoFar(buckets0, remote.buckets, ids, left, structure.buckets)
        decreases |left|
      {
        var name := Any(left);
        var b := remote.buckets[name];
        BucketNames(remote.buckets, name);
        BucketsKeptSoFar(buckets0, remote.buckets, ids, left, structure.buckets);
        if name in structure.buckets {
          BucketUpdated(buckets0, remote.buckets, ids, left, name, structure.buckets);
        } else {
          BucketImported(buckets0, remote.buckets, ids, left, name, structure.buckets);
          BucketRefused(buckets0, remote.buckets, ids, left, name, structure.buckets);
        }
        left := left - {name};
        var localLocation := if b.location in ids then ids[b.location] else b.location;
        if name in structure.buckets {
          var existing := structure.buckets[name];
          BucketNames(structure.buckets, name);
          if existing.location != localLocation {
            structure.UpdateBucket(existing.(location := localLocation));
          }
        } else {
          var ok := structure.AddBucket(b.(location := localLocation));
          if !ok {
            return Some(BucketConflict);
          }
        }
      }
      BucketsDone(buckets0, remote.buckets, ids, structure.buckets);
      BucketsKeptSoFar(buckets0, remote.buckets, ids, {}, structure.buckets);
      return None;
    }
  }

  // ------------------------------------------------------------ users so far

  /** The remote users other than `left` have been imported where the id was free. */
  ghost predicate UsersSoFar(local: map<string, User>, remote: map<string, User>, left: set<string>,
                             users: map<string, User>) {
    && users.Keys == local.Keys + (remote.Keys - left)
    && forall id :: id in users ==> users[id] == if id in local then local[id] else remote[id]
  }

  lemma UsersStart(local: map<string, User>, remote: map<string, User>)
    ensures UsersSoFar(local, remote, remote.Keys, local)
  {
  }

  lemma UserIds(users: map<string, User>, id: string)
    requires UsersSound(users) && id in users
    ensures users[id].id == id
  {
  }

  lemma UsersNext(local: map<string, User>, remote: map<string, User>, left: set<string>, id: string,
                  users: map<string, User>)
    requires UsersSoFar(local, remote, left, users) && UsersSound(remote) && id in left && left <= remote.Keys
    ensures id in users ==> UsersSoFar(local, remote, left - {id}, users)
    ensures id !in users ==> UsersSoFar(local, remote, left - {id}, users[id := remote[id]])
    ensures id !in users && (exists l :: l in users && users[l].accessKey == remote[id].accessKey) ==>
      UsersClash(local, remote)
    ensures forall l :: l in local ==> l in users && users[l] == local[l]
  {
    if id !in users && exists l :: l in users && users[l].accessKey == remote[id].accessKey {
      var l :| l in users && users[l].accessKey == remote[id].accessKey;
      assert l in local;
    }
  }

  lemma UsersDone(local: map<string, User>, remote: map<string, User>, users: map<string, User>)
    requires UsersSoFar(local, remote, {}, users) && UsersSound(users)
    ensures users == remote + local && !UsersClash(local, remote)
    ensures forall l :: l in local ==> l in users && users[l] == local[l]
  {
    forall r, l | r in remote && r !in local && l in local
      ensures local[l].accessKey != remote[r].accessKey
    {
      assert r in users && l in users;
    }
  }

  // ------------------------------------------------------------ buckets so far

  ghost predicate BucketsSoFar(local: map<string, Bucket>, remote: map<string, Bucket>, ids: map<string, string>,
                               left: set<string>, buckets: map<string, Bucket>) {
    && buckets.Keys == local.Keys + (remote.Keys - left)
    && forall n :: n in buckets ==>
      buckets[n] == if n in remote && n !in left then MergedBucket(local, ids, remote[n]) else local[n]
  }

  lemma BucketsStart(local: map<string, Bucket>, remote: map<string, Bucket>, ids: map<string, string>)
    ensures BucketsSoFar(local, remote, ids, remote.Keys, local)
  {
  }

  lemma BucketNames(buckets: map<string, Bucket>, name: string)
    requires BucketsSound(buckets) && name in buckets
    ensures buckets[name].name == name
  {
  }

  /** A merge never changes the id of a bucket. */
  lemma BucketIdsSoFar(local: map<string, Bucket>, remote: map<string, Bucket>, ids: map<string, string>,
                       left: set<string>, buckets: map<string, Bucket>)
    requires BucketsSoFar(local, remote, ids, left, buckets) && BucketsSound(remote)
    ensures forall n :: n in buckets ==> n in local || n in remote
    ensures forall n :: n in buckets ==> buckets[n].id == if n in local then local[n].id else remote[n].id
  {
    forall n | n in buckets
      ensures n in local || n in remote
      ensures buckets[n].id == if n in local then local[n].id else remote[n].id
    {
      assert n in buckets.Keys;
      if n in remote { BucketNames(remote, n); }
    }
  }

  lemma BucketUpdated(local: map<string, Bucket>, remote: map<string, Bucket>, ids: map<string, string>,
                      left: set<string>, name: string, buckets: map<string, Bucket>)
    requires BucketsSoFar(local, remote, ids, left, buckets) && BucketsSound(remote) && name in left
      && left <= remote.Keys
    requires name in buckets
    ensures var moved := buckets[name].(location := Translate(ids, remote[name].location));
      && BucketsSoFar(local, remote, ids, left - {name}, buckets[name := moved])
      && (buckets[name] == moved ==> buckets[name := moved] == buckets)
  {
    hide Translate;
    assert name in buckets.Keys && name in local;
    BucketNames(remote, name);
  }

  lemma BucketImported(local: map<string, Bucket>, remote: map<string, Bucket>, ids: map<string, string>,
                       left: set<string>, name: string, buckets: map<string, Bucket>)
    requires BucketsSoFar(local, remote, ids, left, buckets) && BucketsSound(remote) && name in left
      && left <= remote.Keys
    requires name !in buckets
    ensures BucketsSoFar(local, remote, ids, left - {name},
                         buckets[name := remote[name].(location := Translate(ids, remote[name].location))])
  {
    BucketNames(remote, name);
  }

  lemma BucketRefused(local: map<string, Bucket>, remote: map<string, Bucket>, ids: map<string, string>,
                      left: set<string>, name: string, buckets: map<string, Bucket>)
    requires BucketsSoFar(local, remote, ids, left, buckets) && BucketsSound(remote) && name in remote
      && name !in buckets
    requires name !in local
    ensures (exists n :: n in buckets && buckets[n].id == remote[name].id) ==> BucketsClash(local, remote)
  {
    hide BucketsSoFar;
    BucketIdsSoFar(local, remote, ids, left, buckets);
    assert forall n :: n in remote && remote[n].id == remote[name].id ==> n == name;
  }

  lemma BucketsKeptSoFar(local: map<string, Bucket>, remote: map<string, Bucket>, ids: map<string, string>,
                         left: set<string>, buckets: map<string, Bucket>)
    requires BucketsSoFar(local, remote, ids, left, buckets) && BucketsSound(remote)
    ensures forall n :: n in local ==> n in buckets && buckets[n] == local[n].(location := buckets[n].location)
  {
    forall n | n in local
      ensures n in buckets && buckets[n] == local[n].(location := buckets[n].location)
    {
      assert n in buckets.Keys;
      if n in remote { BucketNames(remote, n); }
    }
  }

  lemma BucketsDone(local: map<string, Bucket>, remote: map<string, Bucket>, ids: map<string, string>,
                    buckets: map<string, Bucket>)
    requires BucketsSoFar(local, remote, ids, {}, buckets) && BucketsSound(buckets) && BucketsSound(remote)
    ensures buckets == MergedBuckets(local, remote, ids) && !BucketsClash(local, remote)
  {
    BucketIdsSoFar(local, remote, ids, {}, buckets);
    assert buckets.Keys == local.Keys + remote.Keys;
    forall r, l | r in remote && r !in local && l in local
      ensures local[l].id != remote[r].id
    {
      assert r in buckets.Keys && l in buckets.Keys;
    }
  }

  lemma AllKept(locations: seq<Location>, users: map<string, User>, buckets: map<string, Bucket>,
                locations': seq<Location>, users': map<string, User>, buckets': map<string, Bucket>)
    requires forall l :: l in locations ==> l in locations'
    requires forall id :: id in users ==> id in users' && users'[id] == users[id]
    requires forall n :: n in buckets ==> n in buckets' && buckets'[n] == buckets[n].(location := buckets'[n].location)
    ensures LocalKept(locations, users, buckets, locations', users', buckets')
  {
  }

  lemma {:induction false} LocationsKept(local: seq<Location>, target: Location, remote: seq<Location>)
    ensures forall l :: l in local ==> l in MergedLocations(local, target, remote)
  {
    if remote != [] {
      LocationsKept(local, target, remote[..|remote| - 1]);
      PlacedFacts(Normalized(remote[|remote| - 1]), MergedLocations(local, target, remote[..|remote| - 1]));
    }
  }

  // ------------------------------------------------------------ what a merge achieves

  lemma {:induction false} LocationsMerged(local: seq<Location>, target: Location, remote: seq<Location>)
    requires target in local
    ensures var merged := MergedLocations(local, target, remote);
      && (forall l :: l in local ==> l in merged)
      && (forall l :: l in merged && l !in local ==>
        exists r :: r in remote && l == Normalized(r) && !SameEndpoint(target, r) && FirstMatch(local, r).None?)
      && (forall r :: r in remote ==> HasId(merged, MappedId(local, target, r)))
  {
    if remote != [] {
      var front, last := remote[..|remote| - 1], remote[|remote| - 1];
      var before := MergedLocations(local, target, front);
      LocationsMerged(local, target, front);
      PlacedFacts(Normalized(last), before);
      assert remote == front + [last];
      assert forall r :: r in remote <==> r in front || r == last;
      var merged := MergedLocations(local, target, remote);
      assert forall l :: l in before ==> l in merged;
      assert forall id :: HasId(before, id) ==> HasId(merged, id);
      if !SameEndpoint(target, last) && FirstMatch(local, last).None? && !HasId(before, last.id) {
        assert Normalized(last) in merged && Normalized(last).id == last.id;
      }
    }
  }

  lemma {:induction false} IdMapAt(local: seq<Location>, target: Location, remote: seq<Location>)
    requires DistinctIds(remote)
    ensures forall r :: r in remote ==>
      r.id in IdMap(local, target, remote) && IdMap(local, target, remote)[r.id] == MappedId(local, target, r)
    ensures forall id :: id in IdMap(local, target, remote) ==> HasId(remote, id)
  {
    if remote != [] {
      var front, last := remote[..|remote| - 1], remote[|remote| - 1];
      IdMapAt(local, target, front);
      assert remote == front + [last];
      forall r | r in front ensures r.id != last.id {
        var i :| 0 <= i < |front| && front[i] == r;
        assert remote[i] == r;
      }
      forall id | HasId(front, id) ensures HasId(remote, id) {
        var l :| l in front && l.id == id;
        assert l in remote;
      }
      assert last in remote;
    }
  }

  /** Every bucket of the remote database has its location and owner there. */
  ghost predicate WellFormed(locations: seq<Location>, users: map<string, User>, buckets: map<string, Bucket>) {
    forall n :: n in buckets ==> HasId(locations, buckets[n].location) && buckets[n].owner in users
  }

  /** After a merge every remote bucket is here, in a location that is here; a new one's owner too. */
  lemma ImportedBucketsAtHome(local: seq<Location>, target: Location, remote: seq<Location>,
                              users: map<string, User>, remoteUsers: map<string, User>,
                              buckets: map<string, Bucket>, remoteBuckets: map<string, Bucket>, n: string)
    requires target in local && DistinctIds(remote) && BucketsSound(remoteBuckets)
    requires WellFormed(remote, remoteUsers, remoteBuckets) && n in remoteBuckets
    ensures var merged := MergedBuckets(buckets, remoteBuckets, IdMap(local, target, remote));
      && n in merged
      && HasId(MergedLocations(local, target, remote), merged[n].location)
      && (n !in buckets ==> merged[n].owner in remoteUsers + users)
  {
    var b := remoteBuckets[n];
    var r :| r in remote && r.id == b.location;
    IdMapAt(local, target, remote);
    LocationsMerged(local, target, remote);
    BucketNames(remoteBuckets, n);
  }

  ghost predicate DistinctEndpoints(locs: seq<Location>) {
    forall a, b :: a in locs && b in locs && a != b ==> !SameEndpoint(a, b)
  }

  lemma {:induction false} FirstMatchUnaffected(loc: Location, x: Location, locs: seq<Location>)
    requires !SameEndpoint(loc, x)
    ensures FirstMatch(Placed(loc, locs), x) == FirstMatch(locs, x)
  {
    if locs != [] && loc.created >= locs[0].created {
      FirstMatchUnaffected(loc, x, locs[1..]);
      assert Placed(loc, locs)[1..] == Placed(loc, locs[1..]);
    } else {
      assert Placed(loc, locs)[1..] == locs;
    }
  }

  /** Importing locations with other endpoints does not change what an endpoint matches. */
  lemma {:induction false} MatchAfterMerge(local: seq<Location>, target: Location, remote: seq<Location>, x: Location)
    requires forall r :: r in remote ==> !SameEndpoint(r, x) || FirstMatch(local, r).Some?
    ensures FirstMatch(MergedLocations(local, target, remote), x) == FirstMatch(local, x)
  {
    if remote != [] {
      var front, last := remote[..|remote| - 1], remote[|remote| - 1];
      assert last in remote && forall r :: r in front ==> r in remote;
      MatchAfterMerge(local, target, front, x);
      if FirstMatch(local, last).None? {
        FirstMatchUnaffected(Normalized(last), x, MergedLocations(local, target, front));
      }
    }
  }

  /** What was imported is found by its endpoint afterwards. */
  lemma {:induction false} ImportFound(local: seq<Location>, target: Location, remote: seq<Location>, x: Location)
    requires DistinctIds(remote) && DistinctEndpoints(remote) && x in remote
    requires !SameEndpoint(target, x) && FirstMatch(local, x).None?
    ensures FirstMatch(MergedLocations(local, target, remote), x) in {None, Some(x.id)}
    ensures HasId(MergedLocations(local, target, remote), x.id)
  {
    var front, last := remote[..|remote| - 1], remote[|remote| - 1];
    var before := MergedLocations(local, target, front);
    assert remote == front + [last];
    PlacedFacts(Normalized(last), before);
    assert Normalized(last) in Placed(Normalized(last), before);
    if x == last {
      forall r | r in front ensures r in remote && r != x {
        var i :| 0 <= i < |front| && front[i] == r;
        assert remote[i].id != last.id;
      }
      MatchAfterMerge(local, target, front, x);
      if !HasId(before, x.id) {
        PlacedFirst(Normalized(x), x, before);
      }
    } else {
      assert x in front;
      assert forall r :: r in front ==> r in remote;
      ImportFound(local, target, front, x);
      assert last in remote && !SameEndpoint(last, x);
      FirstMatchUnaffected(Normalized(last), x, before);
    }
  }

  lemma {:induction false} PlacedFirst(loc: Location, x: Location, locs: seq<Location>)
    requires SameEndpoint(loc, x) && FirstMatch(locs, x).None?
    ensures FirstMatch(Placed(loc, locs), x) == Some(loc.id)
  {
    if locs != [] && loc.created >= locs[0].created {
      assert locs[0] in locs;
      PlacedFirst(loc, x, locs[1..]);
      assert Placed(loc, locs)[1..] == Placed(loc, locs[1..]);
    }
  }

  /** A remote location without a local match is there afterwards, imported or under its id. */
  lemma {:induction false} UnmatchedPresent(local: seq<Location>, target: Location, remote: seq<Location>, x: Location)
    requires x in remote && !SameEndpoint(target, x) && FirstMatch(local, x).None?
    ensures HasId(MergedLocations(local, target, remote), x.id)
  {
    var front, last := remote[..|remote| - 1], remote[|remote| - 1];
    var before := MergedLocations(local, target, front);
    assert remote == front + [last];
    PlacedFacts(Normalized(last), before);
    if x == last {
      assert Normalized(x) in Placed(Normalized(x), before) && Normalized(x).id == x.id;
    } else {
      UnmatchedPresent(local, target, front, x);
      var l :| l in before && l.id == x.id;
      assert l in MergedLocations(local, target, remote);
    }
  }

  /** What a known location matched goes on matching it, and nothing is left to import. */
  lemma TranslationAgain(local: seq<Location>, target: Location, remote: seq<Location>, x: Location)
    requires x in remote
    ensures var merged := MergedLocations(local, target, remote);
      && (SameEndpoint(target, x) || FirstMatch(local, x).Some? ==>
        MappedId(merged, target, x) == MappedId(local, target, x))
      && (SameEndpoint(target, x) || FirstMatch(merged, x).Some? || HasId(merged, x.id))
  {
    if !SameEndpoint(target, x) {
      if FirstMatch(local, x).Some? {
        forall r | r in remote ensures !SameEndpoint(r, x) || FirstMatch(local, r).Some? {
          var l :| l in local && SameEndpoint(l, x);
        }
        MatchAfterMerge(local, target, remote, x);
      } else {
        UnmatchedPresent(local, target, remote, x);
      }
    }
  }

  lemma {:induction false} NothingLeftToImport(merged: seq<Location>, target: Location, remote: seq<Location>)
    requires forall x :: x in remote ==> SameEndpoint(target, x) || FirstMatch(merged, x).Some? || HasId(merged, x.id)
    ensures MergedLocations(merged, target, remote) == merged
  {
    if remote != [] {
      assert remote[|remote| - 1] in remote;
      assert forall x :: x in remote[..|remote| - 1] ==> x in remote;
      NothingLeftToImport(merged, target, remote[..|remote| - 1]);
    }
  }

  /**
   Every remote bucket lies in a location that was known, or that comes first among those
   with its endpoint after the merge.
   */
  ghost predicate Settled(local: seq<Location>, target: Location, remote: seq<Location>,
                          remoteBuckets: map<string, Bucket>) {
    forall n, x :: (
      && n in remoteBuckets && x in remote && x.id == remoteBuckets[n].location
      && !SameEndpoint(target, x) && FirstMatch(local, x).None?) ==>
      FirstMatch(MergedLocations(local, target, remote), x) in {None, Some(x.id)}
  }

  /** A bucket is translated alike by both merges exactly when its location is settled. */
  lemma TranslatedAlike(local: seq<Location>, target: Location, remote: seq<Location>, id: string)
    requires DistinctIds(remote)
    ensures var merged := MergedLocations(local, target, remote);
      Translate(IdMap(merged, target, remote), id) == Translate(IdMap(local, target, remote), id) <==>
        forall x :: x in remote && x.id == id && !SameEndpoint(target, x) && FirstMatch(local, x).None? ==>
          FirstMatch(merged, x) in {None, Some(x.id)}
  {
    hide IdMap, MergedLocations;
    var merged := MergedLocations(local, target, remote);
    IdMapAt(local, target, remote);
    IdMapAt(merged, target, remote);
    if x :| x in remote && x.id == id {
      TranslationAgain(local, target, remote, x);
      forall y | y in remote && y.id == id ensures y == x {
      }
    }
  }

  lemma RetargetedAlike(buckets: map<string, Bucket>, remote: map<string, Bucket>,
                        ids: map<string, string>, ids': map<string, string>)
    requires BucketsSound(remote)
    ensures var merged := MergedBuckets(buckets, remote, ids);
      && (MergedBuckets(merged, remote, ids') == merged <==>
        forall n :: n in remote ==> Translate(ids', remote[n].location) == Translate(ids, remote[n].location))
      && !BucketsClash(merged, remote)
  {
    var merged := MergedBuckets(buckets, remote, ids);
    var again := MergedBuckets(merged, remote, ids');
    assert again.Keys == merged.Keys;
    forall n | n in remote
      ensures n in merged && merged[n].location == Translate(ids, remote[n].location)
      ensures again[n] == merged[n].(location := Translate(ids', remote[n].location))
    {
      BucketNames(remote, n);
    }
    assert forall n :: n in merged && n !in remote ==> again[n] == merged[n];
    if again == merged {
      forall n | n in remote ensures Translate(ids', remote[n].location) == Translate(ids, remote[n].location) {
        assert again[n] == merged[n];
      }
    }
  }

  /**
   Merging the same database again always succeeds and never changes locations or users.
   It changes nothing at all exactly when every remote bucket's location is settled.
   */
  lemma MergeTwiceIff(local: seq<Location>, target: Location, remote: seq<Location>,
                      users: map<string, User>, remoteUsers: map<string, User>,
                      buckets: map<string, Bucket>, remoteBuckets: map<string, Bucket>)
    requires DistinctIds(remote) && BucketsSound(remoteBuckets)
    ensures
      var locations1 := MergedLocations(local, target, remote);
      var users1 := remoteUsers + users;
      var buckets1 := MergedBuckets(buckets, remoteBuckets, IdMap(local, target, remote));
      && !UsersClash(users1, remoteUsers) && !BucketsClash(buckets1, remoteBuckets)
      && MergedLocations(locations1, target, remote) == locations1
      && remoteUsers + users1 == users1
      && (MergedBuckets(buckets1, remoteBuckets, IdMap(locations1, target, remote)) == buckets1 <==>
        Settled(local, target, remote, remoteBuckets))
  {
    hide MergedLocations, IdMap, MergedBuckets, BucketsClash, FirstMatch;
    var locations1 := MergedLocations(local, target, remote);
    forall x | x in remote
      ensures SameEndpoint(target, x) || FirstMatch(locations1, x).Some? || HasId(locations1, x.id)
    {
      TranslationAgain(local, target, remote, x);
    }
    NothingLeftToImport(locations1, target, remote);
    var ids, ids' := IdMap(local, target, remote), IdMap(locations1, target, remote);
    RetargetedAlike(buckets, remoteBuckets, ids, ids');
    forall n | n in remoteBuckets
      ensures Translate(ids', remoteBuckets[n].location) == Translate(ids, remoteBuckets[n].location) <==>
        forall x :: x in remote && x.id == remoteBuckets[n].location ==>
          SameEndpoint(target, x) || FirstMatch(local, x).Some? || FirstMatch(locations1, x) in {None, Some(x.id)}
    {
      TranslatedAlike(local, target, remote, remoteBuckets[n].location);
    }
  }

  /** Pairwise distinct remote endpoints are enough. */
  lemma DistinctEndpointsSettle(local: seq<Location>, target: Location, remote: seq<Location>,
                                remoteBuckets: map<string, Bucket>)
    requires DistinctIds(remote) && DistinctEndpoints(remote)
    ensures Settled(local, target, remote, remoteBuckets)
  {
    forall x | x in remote && !SameEndpoint(target, x) && FirstMatch(local, x).None?
      ensures FirstMatch(MergedLocations(local, target, remote), x) in {None, Some(x.id)}
    {
      ImportFound(local, target, remote, x);
    }
  }

  /**
   When remote endpoints are pairwise distinct, merging the same database again succeeds
   and changes nothing.
   */
  lemma MergeTwice(local: seq<Location>, target: Location, remote: seq<Location>,
                   users: map<string, User>, remoteUsers: map<string, User>,
                   buckets: map<string, Bucket>, remoteBuckets: map<string, Bucket>)
    requires DistinctIds(remote) && DistinctEndpoints(remote) && BucketsSound(remoteBuckets)
    ensures
      var locations1 := MergedLocations(local, target, remote);
      var users1 := remoteUsers + users;
      var buckets1 := MergedBuckets(buckets, remoteBuckets, IdMap(local, target, remote));
      && !UsersClash(users1, remoteUsers) && !BucketsClash(buckets1, remoteBuckets)
      && MergedLocations(locations1, target, remote) == locations1
      && remoteUsers + users1 == users1
      && MergedBuckets(buckets1, remoteBuckets, IdMap(locations1, target, remote)) == buckets1
  {
    hide *;
    DistinctEndpointsSettle(local, target, remote, remoteBuckets);
    MergeTwiceIff(local, target, remote, users, remoteUsers, buckets, remoteBuckets);
  }

  lemma BothImported(target: Location, a: Location, b: Location)
    requires !SameEndpoint(target, a) && !SameEndpoint(target, b)
    requires a.id != b.id && a.id != target.id && b.id != target.id
    requires target.created <= a.created <= b.created
    ensures MergedLocations([target], target, [a, b]) == [target, Normalized(a), Normalized(b)]
  {
    hide SameEndpoint, Normalized;
    var na, nb := Normalized(a), Normalized(b);
    assert na.id == a.id && nb.id == b.id && na.created == a.created && nb.created == b.created by {
      NormalizedKeeps(a);
      NormalizedKeeps(b);
    }
    assert [a, b][..1] == [a] && [a][..0] == [];
    assert MergedLocations([target], target, []) == [target];
    assert [target][1..] == [] && [target, na][1..] == [na] && [na][1..] == [];
    assert Placed(na, [target]) == [target, na];
    assert MergedLocations([target], target, [a]) == [target, na];
    assert Placed(nb, [na]) == [na, nb];
    assert Placed(nb, [target, na]) == [target, na, nb];
  }

  lemma NormalizedKeeps(loc: Location)
    ensures Normalized(loc).id == loc.id && Normalized(loc).created == loc.created
    ensures forall x :: SameEndpoint(Normalized(loc), x) <==> SameEndpoint(loc, x)
  {
  }

  /**
   The condition is needed: of two new remote locations with one endpoint the second merge
   finds the first for both, and so moves the other one's buckets there.
   */
  lemma SharedEndpointMovesBuckets(target: Location, a: Location, b: Location)
    requires SameEndpoint(a, b) && !SameEndpoint(target, a)
    requires a.id != b.id && a.id != target.id && b.id != target.id
    requires target.created <= a.created <= b.created
    ensures
      var first := MergedLocations([target], target, [a, b]);
      && IdMap([target], target, [a, b]) == map[a.id := a.id, b.id := b.id]
      && IdMap(first, target, [a, b]) == map[a.id := a.id, b.id := a.id]
  {
    hide Normalized, MergedLocations, SameEndpoint;
    NormalizedKeeps(a);
    EndpointsAgree(target, a, b);
    BothImported(target, a, b);
    var na, nb := Normalized(a), Normalized(b);
    assert SameEndpoint(na, a) && SameEndpoint(na, b) && na.id == a.id;
    SecondMatches(target, na, nb, a);
    SecondMatches(target, na, nb, b);
    OnlyMatch(target, a);
    OnlyMatch(target, b);
    IdMapOfTwo([target], target, a, b, a.id, b.id);
    IdMapOfTwo([target, na, nb], target, a, b, a.id, a.id);
  }

  lemma EndpointsAgree(target: Location, a: Location, b: Location)
    requires SameEndpoint(a, b) && !SameEndpoint(target, a)
    ensures SameEndpoint(a, a) && !SameEndpoint(target, b)
    ensures forall x :: SameEndpoint(x, a) <==> SameEndpoint(x, b)
  {
  }

  lemma SecondMatches(target: Location, l: Location, m: Location, x: Location)
    requires !SameEndpoint(target, x) && SameEndpoint(l, x)
    ensures FirstMatch([target, l, m], x) == Some(l.id)
  {
    assert [target, l, m][1..] == [l, m];
    assert FirstMatch([l, m], x) == Some(l.id);
  }

  lemma OnlyMatch(target: Location, x: Location)
    requires !SameEndpoint(target, x)
    ensures FirstMatch([target], x) == None
  {
    assert [target][1..] == [];
  }

  lemma IdMapOfTwo(locs: seq<Location>, target: Location, a: Location, b: Location, i: string, j: string)
    requires !SameEndpoint(target, a) && !SameEndpoint(target, b)
    requires FirstMatch(locs, a) == Some(i) || (FirstMatch(locs, a).None? && i == a.id)
    requires FirstMatch(locs, b) == Some(j) || (FirstMatch(locs, b).None? && j == b.id)
    ensures IdMap(locs, target, [a, b]) == map[a.id := i][b.id := j]
  {
    hide FirstMatch, SameEndpoint;
    assert [a, b][..1] == [a] && [a][..0] == [];
    assert IdMap(locs, target, []) == map[];
    assert IdMap(locs, target, [a]) == map[a.id := i];
  }
}
