/**
 Uploads that are retried and checked by size, and metadata uploads that go to a
 temporary file first.
 */
module RetryUpload {
  import opened GoStrings
  import opened Wrappers
  import opened Numbers

  datatype Error = NoLocalFile | Cancelled | AttemptFailed | RenameFailed

  /**
   The server behind the client.  An upload may be reported as done although less arrived,
   and may leave something behind when it is reported as failed.
   */
  class Remote {
    var files: map<string, Bytes>
    ghost var history: seq<map<string, Bytes>>   // the files after each request so far
    ghost var faults: nat                        // requests that went wrong, reported or not

    method UploadFromFile(p: string, data: Bytes) returns (ok: bool)
      modifies this
      ensures faults == old(faults) ==> ok && files == old(files)[p := data]
      ensures old(faults) <= faults
      ensures files.Keys <= old(files).Keys + {p}
      ensures forall q :: q != p && q in old(files) ==> q in files && files[q] == old(files)[q]
      ensures history == old(history) + [files]
    {
      var well := *;
      if well {
        ok := true;
        files := files[p := data];
      } else {
        ok := *;
        var arrived: Bytes := *;
        if * {
          files := files[p := arrived];
        }
        faults := faults + 1;
      }
      history := history + [files];
    }

    method Stat(p: string) returns (size: Option<nat>)
      modifies this`faults
      ensures faults == old(faults) && p in files ==> size.Some?
      ensures old(faults) <= faults
      ensures size.Some? ==> p in files && size.value == |files[p]|
    {
      var ok := *;
      if !ok { faults := faults + 1; }
      return if ok && p in files then Some(|files[p]|) else None;
    }

    method Rename(p: string, q: string) returns (ok: bool)
      modifies this
      ensures faults == old(faults) && p in old(files) ==> ok
      ensures old(faults) <= faults
      ensures ok ==> p in old(files) && files == (old(files) - {p})[q := old(files)[p]]
      ensures !ok ==> files == old(files)
      ensures history == old(history) + [files]
    {
      ok := *;
      if !ok { faults := faults + 1; }
      ok := ok && p in files;
      if ok {
        files := (files - {p})[q := files[p]];
      }
      history := history + [files];
    }

    method Delete(p: string) returns (ok: bool)
      modifies this
      ensures faults == old(faults) ==> ok
      ensures old(faults) <= faults
      ensures files == if ok then old(files) - {p} else old(files)
      ensures history == old(history) + [files]
    {
      ok := *;
      if ok {
        files := files - {p};
      } else {
        faults := faults + 1;
      }
      history := history + [files];
    }
  }

  // ------------------------------------------------------------ backoff

  function Pow2(n: nat): (r: nat)
    ensures r >= 1
  {
    if n == 0 then 1 else 2 * Pow2(n - 1)
  }

  const TWO_63 := 0x8000_0000_0000_0000
  const TWO_64 := 0x1_0000_0000_0000_0000

  /** Durations are 64 bits wide and wrap around. */
  function Int64(n: int): int {
    (n + TWO_63) % TWO_64 - TWO_63
  }

  /** base * (1 << (attempt - 1)) */
  function Delay(base: int, attempt: nat): int
    requires attempt > 0
  {
    Int64(base * Pow2(attempt - 1))
  }

  /** What has been slept before the n-th attempt, counting from zero. */
  function SleptBefore(base: int, n: nat): int {
    if n <= 1 then 0 else SleptBefore(base, n - 1) + Delay(base, n - 1)
  }

  lemma Doubled(base: nat, n: nat)
    ensures base * Pow2(n + 1) == 2 * (base * Pow2(n))
    ensures base <= base * Pow2(n)
  {
    var p := Pow2(n);
    assert Pow2(n + 1) == 2 * p;
    assert base * (2 * p) == 2 * (base * p);
    assert base * p >= base * 1 by {
      if p > 1 { assert base * p == base + base * (p - 1); }
    }
  }

  /** While nothing wraps around, n attempts sleep base * (2^(n-1) - 1) in all. */
  lemma {:induction false} BackoffTotal(base: nat, n: nat)
    requires n >= 1 && base * Pow2(n - 1) <= TWO_63
    ensures SleptBefore(base, n) == base * Pow2(n - 1) - base
  {
    if n == 1 {
      assert base * Pow2(0) == base;
    } else {
      Doubled(base, n - 2);
      var d: int := base * Pow2(n - 2);
      assert 0 <= d < TWO_63;
      assert (d + TWO_63) % TWO_64 == d + TWO_63;
      assert Delay(base, n - 1) == d;
      BackoffTotal(base, n - 1);
    }
  }

  // ------------------------------------------------------------ the client

  /** The directory part of a clean path. */
  function Dir(p: string): string {
    if p == [] then "."
    else if p[|p| - 1] == '/' then if |p| == 1 then "/" else p[..|p| - 1]
    else Dir(p[..|p| - 1])
  }

  predicate HasSuffix(s: string, suffix: string) {
    |suffix| <= |s| && s[|s| - |suffix|..] == suffix
  }

  predicate ShouldUploadAtomically(p: string) {
    HasSuffix(p, ".db") && HasSuffix(Dir(p), "_meta")
  }

  /** At every moment since, the file was as it was at first, or had the right size. */
  ghost predicate NeverTorn(first: map<string, Bytes>, later: seq<map<string, Bytes>>, p: string, size: nat) {
    forall i :: 0 <= i < |later| ==> SameAt(first, later[i], p) || (p in later[i] && |later[i][p]| == size)
  }

  ghost predicate SameAt(a: map<string, Bytes>, b: map<string, Bytes>, p: string) {
    (p in a <==> p in b) && (p in a ==> a[p] == b[p])
  }

  class RetryClient {
    const inner: Remote
    const retries: int
    const base: nat
    var uploads: nat    // uploads attempted
    var slept: int      // total of the durations passed to SleepFn

    constructor (inner: Remote, retries: int, base: nat)
      ensures this.inner == inner && this.retries == retries && this.base == base && uploads == 0 && slept == 0
    {
      this.inner, this.retries, this.base := inner, retries, base;
      uploads, slept := 0, 0;
    }

    /** `src` is the local file, if it can be read. */
    method UploadFromFile(p: string, src: Option<Bytes>, now: nat) returns (r: Result<(), Error>)
      modifies this, inner
      ensures old(inner.history) <= inner.history && inner.faults >= old(inner.faults)
      ensures r.Ok? && retries >= 1 ==> src.Some? && p in inner.files && |inner.files[p]| == |src.value|
      ensures retries >= 1 ==> uploads <= old(uploads) + retries
      ensures src.None? ==> r == Err(NoLocalFile)
      ensures inner.faults == old(inner.faults) && src.Some? && retries >= 1 ==>
        && r == Ok(()) && uploads == old(uploads) + 1
        && inner.files == (old(inner.files) - {StagingPath(p, now)})[p := src.value]
      ensures OnlyAt(old(inner.files), inner.history[|old(inner.history)|..], p, StagingPath(p, now))
      ensures ShouldUploadAtomically(p) && r.Err? ==> SameAt(old(inner.files), inner.files, p)
      ensures ShouldUploadAtomically(p) && retries >= 1 ==>
        NeverTorn(old(inner.files), inner.history[|old(inner.history)|..], p, if src.Some? then |src.value| else 0)
    {
      if ShouldUploadAtomically(p) {
        r := UploadFromFileAtomic(p, src, now);
      } else {
        r := UploadFromFileVerified(p, src);
      }
    }

    /**
     Uploads until the size is right.  Success means that the last upload was checked; with
     no attempts at all it is reported without an upload.
     */
    method UploadFromFileVerified(p: string, src: Option<Bytes>) returns (r: Result<(), Error>)
      modifies this, inner
      ensures old(inner.history) <= inner.history && inner.faults >= old(inner.faults)
      ensures src.None? ==> r == Err(NoLocalFile) && uploads == old(uploads) && inner.files == old(inner.files)
      ensures src.Some? && retries <= 0 ==> r == Ok(()) && uploads == old(uploads) && inner.files == old(inner.files)
      ensures r.Ok? && retries >= 1 ==> src.Some? && p in inner.files && |inner.files[p]| == |src.value|
      ensures r.Ok? && retries >= 1 ==> old(uploads) < uploads
      ensures uploads <= old(uploads) + if retries >= 1 then retries else 0
      ensures inner.faults == old(inner.faults) && src.Some? && retries >= 1 ==>
        r == Ok(()) && uploads == old(uploads) + 1 && inner.files == old(inner.files)[p := src.value]
      ensures r == Err(AttemptFailed) ==> inner.faults >= old(inner.faults) + retries
      ensures r == Err(AttemptFailed) ==>
        retries >= 1 && uploads == old(uploads) + retries && slept == old(slept) + SleptBefore(base, retries)
      ensures r == Err(AttemptFailed) && base * Pow2(retries - 1) <= TWO_63 ==>
        slept == old(slept) + base * Pow2(retries - 1) - base
      ensures r == Err(Cancelled) ==> old(uploads) < uploads < old(uploads) + retries
      ensures r.Err? ==> r.error in {NoLocalFile, Cancelled, AttemptFailed}
      ensures inner.files.Keys <= old(inner.files).Keys + {p}
      ensures forall q :: q != p && q in old(inner.files) ==> q in inner.files && inner.files[q] == old(inner.files)[q]
      ensures OnlyAt(old(inner.files), inner.history[|old(inner.history)|..], p, p)
    {
      if src.None? { return Err(NoLocalFile); }
      var expectedSize := |src.value|;
      var attempt := 0;
      var lastErr: Option<Error> := None;
      while attempt < retries
        invariant 0 <= attempt <= if retries >= 1 then retries else 0
        invariant uploads == old(uploads) + attempt
        invariant inner.faults >= old(inner.faults) + attempt
        invariant slept == old(slept) + SleptBefore(base, attempt)
        invariant attempt > 0 ==> lastErr == Some(AttemptFailed)
        invariant attempt == 0 ==> lastErr.None? && inner.files == old(inner.files)
        invariant old(inner.history) <= inner.history
        invariant inner.files.Keys <= old(inner.files).Keys + {p}
        invariant forall q :: q != p && q in old(inner.files) ==>
          q in inner.files && inner.files[q] == old(inner.files)[q]
        invariant OnlyAt(old(inner.files), inner.history[|old(inner.history)|..], p, p)
        decreases retries - attempt
      {
        if attempt > 0 {
          var delay := Delay(base, attempt);
          var cancelled := *;
          if cancelled { return Err(Cancelled); }
          slept := slept + delay;
        }
        ghost var before := inner.history;
        var ok := inner.UploadFromFile(p, src.value);
        uploads := uploads + 1;
        attempt := attempt + 1;
        OneMore(old(inner.files), old(inner.history), before, inner.files, p);
        if !ok {
          lastErr := Some(AttemptFailed);
          continue;
        }
        var size := inner.Stat(p);
        if size.None? {
          lastErr := Some(AttemptFailed);
          continue;
        }
        if size.value != expectedSize {
          lastErr := Some(AttemptFailed);
          continue;
        }
        return Ok(());
      }
      if retries >= 1 && base * Pow2(retries - 1) <= TWO_63 { BackoffTotal(base, retries); }
      return if lastErr.Some? then Err(lastErr.value) else Ok(());
    }

    /**
     The final path changes only when a verified temporary file is renamed onto it, so at
     no moment does it hold a file of the wrong size.
     */
    method UploadFromFileAtomic(p: string, src: Option<Bytes>, now: nat) returns (r: Result<(), Error>)
      modifies this, inner
      ensures old(inner.history) <= inner.history && inner.faults >= old(inner.faults)
      ensures src.None? ==> r == Err(NoLocalFile)
      ensures retries >= 1 ==> uploads <= old(uploads) + retries
      ensures inner.faults == old(inner.faults) && src.Some? && retries >= 1 ==>
        && r == Ok(()) && uploads == old(uploads) + 1
        && inner.files == (old(inner.files) - {TempPath(p, now)})[p := src.value]
      ensures OnlyAt(old(inner.files), inner.history[|old(inner.history)|..], p, TempPath(p, now))
      ensures r.Ok? && retries >= 1 ==>
        src.Some? && p in inner.files && |inner.files[p]| == |src.value| && TempPath(p, now) !in inner.files
      ensures r.Err? ==> SameAt(old(inner.files), inner.files, p)
      ensures retries >= 1 ==>
        NeverTorn(old(inner.files), inner.history[|old(inner.history)|..], p, if src.Some? then |src.value| else 0)
    {
      hide TempPath, NeverTorn, SleptBefore, Pow2;
      var tmp := TempPath(p, now);
      TempDiffers(p, now);
      r := UploadFromFileVerified(tmp, src);
      ghost var h1 := inner.history;
      ghost var size := if src.Some? then |src.value| else 0;
      assert forall q :: q != tmp ==> SameAt(old(inner.files), inner.files, q);
      if r.Err? {
        var _ := inner.Delete(tmp);
        Extended(old(inner.files), old(inner.history), h1, inner.files, p, tmp, size);
        return;
      }
      var renamed := inner.Rename(tmp, p);
      ghost var h2 := inner.history;
      if retries >= 1 || !renamed {
        Extended(old(inner.files), old(inner.history), h1, inner.files, p, tmp, size);
      } else {
        assert inner.history[|old(inner.history)|..] == h1[|old(inner.history)|..] + [inner.files];
      }
      if !renamed {
        var _ := inner.Delete(tmp);
        Extended(old(inner.files), old(inner.history), h2, inner.files, p, tmp, size);
        return Err(RenameFailed);
      }
    }
  }

  function TempPath(p: string, now: nat): string {
    p + ".tmp-" + Itoa(now)
  }

  /** Where the bytes of an upload arrive. */
  function StagingPath(p: string, now: nat): string {
    if ShouldUploadAtomically(p) then TempPath(p, now) else p
  }

  lemma TempDiffers(p: string, now: nat)
    ensures TempPath(p, now) != p
  {
    assert |TempPath(p, now)| > |p|;
  }

  /** Every file but these two is at all times as it was at first. */
  ghost predicate OnlyAt(first: map<string, Bytes>, later: seq<map<string, Bytes>>, p: string, tmp: string) {
    forall i, q :: 0 <= i < |later| && q != p && q != tmp ==> SameAt(first, later[i], q)
  }

  lemma OneMore(first: map<string, Bytes>, start: seq<map<string, Bytes>>, before: seq<map<string, Bytes>>,
                now: map<string, Bytes>, p: string)
    requires start <= before && OnlyAt(first, before[|start|..], p, p)
    requires now.Keys <= first.Keys + {p}
    requires forall q :: q != p && q in first ==> q in now && now[q] == first[q]
    ensures start <= before + [now] && OnlyAt(first, (before + [now])[|start|..], p, p)
  {
    assert (before + [now])[|start|..] == before[|start|..] + [now];
    forall q | q != p ensures SameAt(first, now, q) {
      if q in now { assert q in now.Keys; }
    }
  }

  lemma Extended(first: map<string, Bytes>, start: seq<map<string, Bytes>>, before: seq<map<string, Bytes>>,
                 now: map<string, Bytes>, p: string, tmp: string, size: nat)
    requires start <= before && OnlyAt(first, before[|start|..], p, tmp)
    requires forall q :: q != p && q != tmp ==> SameAt(first, now, q)
    requires NeverTorn(first, before[|start|..], p, size)
    requires SameAt(first, now, p) || (p in now && |now[p]| == size)
    ensures OnlyAt(first, (before + [now])[|start|..], p, tmp)
    ensures NeverTorn(first, (before + [now])[|start|..], p, size)
  {
    assert (before + [now])[|start|..] == before[|start|..] + [now];
  }

  /** Snapshots of bucket databases are uploaded atomically. */
  lemma SnapshotsAreAtomic(base: string, id: string)
    requires '/' !in id
    ensures ShouldUploadAtomically(base + "_meta/" + id + ".db")
  {
    var p := base + "_meta/" + id + ".db";
    assert p[|p| - 3..] == ".db";
    DirOf(base + "_meta", id + ".db");
    assert p == (base + "_meta") + "/" + (id + ".db");
    assert (base + "_meta")[|base|..] == "_meta";
  }

  lemma {:induction false} DirOf(dir: string, name: string)
    requires dir != "" && '/' !in name
    ensures Dir(dir + "/" + name) == dir
  {
    var p := dir + "/" + name;
    if name == [] {
      assert p[..|p| - 1] == dir;
    } else {
      assert p[|p| - 1] == name[|name| - 1];
      assert p[..|p| - 1] == dir + "/" + name[..|name| - 1];
      DirOf(dir, name[..|name| - 1]);
    }
  }
}
