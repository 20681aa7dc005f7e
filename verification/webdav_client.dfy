/**
 The WebDAV server as the services see it: a flat map of files, the bucket metadata
 files kept apart as the tables they hold, and calls that may fail without effect.
 */
module WebDavClient {
  import opened GoStrings
  import opened Wrappers
  import opened Layout
  import opened BucketTables
  import opened CrashModel

  class WebDav {
    var files: map<string, Bytes>
    var snapshots: map<string, Tables>

    /** How many calls have failed, and the disk after every call: a crash may strike there. */
    ghost var faults: nat
    ghost var history: seq<Disk>

    constructor ()
      ensures files == map[] && snapshots == map[] && faults == 0 && history == []
    {
      files, snapshots, faults, history := map[], map[], 0, [];
    }

    method Attempt() returns (ok: bool)
      modifies this`faults
      ensures faults == old(faults) + if ok then 0 else 1
    {
      ok := *;
      if !ok { faults := faults + 1; }
    }

    /** Directories are implicit in the file map. */
    method MkdirAll(path: string) returns (ok: bool)
      modifies this`faults
      ensures faults == old(faults) + if ok then 0 else 1
    {
      ok := Attempt();
    }

    method Upload(path: string, data: Bytes) returns (ok: bool)
      modifies this
      ensures files == if ok then old(files)[path := data] else old(files)
      ensures snapshots == old(snapshots)
      ensures faults == old(faults) + if ok then 0 else 1
      ensures history == old(history) + [Disk(files, snapshots)]
    {
      ok := Attempt();
      if ok { files := files[path := data]; }
      history := history + [Disk(files, snapshots)];
    }

    method Delete(path: string) returns (ok: bool)
      modifies this
      ensures files == if ok then RemoveTree(old(files), path) else old(files)
      ensures snapshots == old(snapshots)
      ensures faults == old(faults) + if ok then 0 else 1
      ensures history == old(history) + [Disk(files, snapshots)]
    {
      ok := Attempt();
      if ok { files := RemoveTree(files, path); }
      history := history + [Disk(files, snapshots)];
    }

    /** Replaces `_meta/{bucket}.db`, by a verified temporary file and a rename. */
    method UploadSnapshot(bucket: string, tables: Tables) returns (ok: bool)
      modifies this
      ensures snapshots == if ok then old(snapshots)[bucket := tables] else old(snapshots)
      ensures files == old(files)
      ensures faults == old(faults) + if ok then 0 else 1
      ensures history == old(history) + [Disk(files, snapshots)]
    {
      ok := Attempt();
      if ok { snapshots := snapshots[bucket := tables]; }
      history := history + [Disk(files, snapshots)];
    }

    method Download(path: string) returns (data: Option<Bytes>)
      modifies this`faults
      ensures data.Some? ==> path in files && data.value == files[path] && faults == old(faults)
      ensures data.None? ==> path !in files || faults == old(faults) + 1
    {
      var ok := Attempt();
      return if ok && path in files then Some(files[path]) else None;
    }

    method ReadDir(path: string) returns (names: Option<set<string>>)
      modifies this`faults
      ensures names.Some? ==> names.value == Children(files, path) && faults == old(faults)
      ensures names.None? ==> faults == old(faults) + 1
    {
      var ok := Attempt();
      return if ok then Some(Children(files, path)) else None;
    }
  }
}
