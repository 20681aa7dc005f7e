/**
 Where the gateway keeps things on a WebDAV location, and what the WebDAV
 calls do to a flat map from paths to contents.
 */
module Layout {
  import opened GoStrings
  import opened Numbers
  import opened Wrappers

  function DataDir(base: string): string { base + "_data/" }

  function PartsDir(base: string): string { base + "_parts/" }

  /** The content-addressed path of a blob, from the hex SHA-256 of its bytes. */
  function DataPath(base: string, sha: string): string
    requires |sha| >= 2
  {
    DataDir(base) + sha[..2] + "/" + sha
  }

  function PartPath(base: string, uploadId: string, part: int): string {
    PartsDir(base) + uploadId + "/" + Itoa(part)
  }

  /** As SHA-256 in hex looks: 64 characters, none of them a slash. */
  ghost predicate IsSha256(sha: Bytes -> string) {
    forall x :: |sha(x)| == 64 && '/' !in sha(x)
  }

  /** No two of these contents have one digest. */
  ghost predicate NoCollision(sha: Bytes -> string, bodies: iset<Bytes>) {
    forall x, y :: x in bodies && y in bodies && sha(x) == sha(y) ==> x == y
  }

  /** The upload id the collector reads back from a chunk path, if it finds one. */
  function UploadOf(base: string, path: string): Option<string> {
    var rel := TrimPrefix(path, PartsDir(base));
    if rel == path then None
    else
      var i := Index(rel, "/");
      if i >= 0 then Some(rel[..i]) else None
  }

  /** A printed part path parses back to the upload it was printed for. */
  lemma UploadOfPartPath(base: string, u: string, n: int)
    requires '/' !in u
    ensures UploadOf(base, PartPath(base, u, n)) == Some(u)
  {
    var rel := u + "/" + Itoa(n);
    var p := PartPath(base, u, n);
    assert p == PartsDir(base) + rel;
    assert TrimPrefix(p, PartsDir(base)) == rel;
    IndexOfFirst(u, '/', Itoa(n));
    assert rel == u + ['/'] + Itoa(n) && |rel| < |p|;
    assert Index(rel, "/") == |u| && rel[..|u|] == u;
  }

  lemma PartPathInjective(base: string, u: string, n: int, v: string, m: int)
    requires '/' !in u && '/' !in v
    requires PartPath(base, u, n) == PartPath(base, v, m)
    ensures u == v && n == m
  {
    UploadOfPartPath(base, u, n);
    UploadOfPartPath(base, v, m);
    var i := |PartsDir(base) + u + "/"|;
    assert PartPath(base, u, n)[i..] == Itoa(n);
    assert PartPath(base, v, m)[i..] == Itoa(m);
    ItoaInjective(n, m);
  }

  lemma DataPathInjective(base: string, s: string, t: string)
    requires |s| == |t| >= 2 && DataPath(base, s) == DataPath(base, t)
    ensures s == t
  {
    var i := |DataDir(base)| + 3;
    assert DataPath(base, s)[i..] == s;
    assert DataPath(base, t)[i..] == t;
  }

  /** Nothing lies both under `_data/` and under `_parts/`. */
  lemma DataAndPartsDisjoint(base: string, p: string)
    requires DataDir(base) <= p
    ensures !(PartsDir(base) <= p)
  {
    assert p[|base| + 1] == DataDir(base)[|base| + 1] == 'd';
    assert PartsDir(base)[|base| + 1] == 'p';
  }

  lemma PathsUnderTheirDirectories(base: string, sha: string, u: string, n: int)
    requires |sha| >= 2
    ensures DataDir(base) <= DataPath(base, sha)
    ensures PartsDir(base) <= PartPath(base, u, n)
    ensures DataPath(base, sha) != PartPath(base, u, n)
  {
    DataAndPartsDisjoint(base, DataPath(base, sha));
  }

  // ------------------------------------------------------------ directories

  /** A path or anything below it. */
  predicate Under(p: string, q: string) {
    q == p || p + "/" <= q
  }

  /** DELETE removes a file, or a collection with everything in it. */
  function RemoveTree(files: map<string, Bytes>, p: string): map<string, Bytes> {
    map q | q in files && !Under(p, q) :: files[q]
  }

  function AsDir(dir: string): string {
    if dir != "" && dir[|dir| - 1] == '/' then dir else dir + "/"
  }

  function FirstComponent(rel: string): string {
    var i := Index(rel, "/");
    if i >= 0 then rel[..i] else rel
  }

  /** The names a directory listing shows. */
  function Children(files: map<string, Bytes>, dir: string): set<string> {
    set p | p in files && AsDir(dir) <= p :: FirstComponent(p[|AsDir(dir)|..])
  }

  /** Paths the gateway itself stores object data at. */
  ghost predicate StoragePath(base: string, sha: Bytes -> string, p: string)
    requires IsSha256(sha)
  {
    || (exists x: Bytes :: p == DataPath(base, sha(x)))
    || (exists u, n :: '/' !in u && p == PartPath(base, u, n))
  }

  /** No storage path lies below another one, so deleting one file deletes just that. */
  lemma NothingBelow(base: string, sha: Bytes -> string, p: string, q: string)
    requires IsSha256(sha) && StoragePath(base, sha, p) && StoragePath(base, sha, q)
    requires Under(p, q)
    ensures p == q
  {
    if x: Bytes :| p == DataPath(base, sha(x)) {
      BelowBlob(base, sha, x, q);
    } else {
      var u, n :| '/' !in u && p == PartPath(base, u, n);
      UnderPart(base, u, n, q);
      if y: Bytes :| q == DataPath(base, sha(y)) {
        PathsUnderTheirDirectories(base, sha(y), u, n);
        DataAndPartsDisjoint(base, q);
      } else {
        var v, m :| '/' !in v && q == PartPath(base, v, m);
        UploadOfPartPath(base, v, m);
        PartBelowPart(base, u, n, m);
      }
    }
  }

  lemma BelowBlob(base: string, sha: Bytes -> string, x: Bytes, q: string)
    requires IsSha256(sha) && StoragePath(base, sha, q)
    requires Under(DataPath(base, sha(x)), q)
    ensures q == DataPath(base, sha(x))
  {
    PathsUnderTheirDirectories(base, sha(x), "", 0);
    DataAndPartsDisjoint(base, q);
    if y: Bytes :| q == DataPath(base, sha(y)) {
      assert |q| == |DataPath(base, sha(x))|;
    } else {
      var v, m :| '/' !in v && q == PartPath(base, v, m);
      PathsUnderTheirDirectories(base, sha(x), v, m);
    }
  }

  lemma PartBelowPart(base: string, u: string, n: int, m: int)
    requires Under(PartPath(base, u, n), PartPath(base, u, m))
    ensures n == m
  {
    var i := |PartsDir(base) + u + "/"|;
    var p, q := PartPath(base, u, n), PartPath(base, u, m);
    assert p[i..] == Itoa(n) && q[i..] == Itoa(m);
    ItoaCharacters(m);
    assert (p + "/")[|p|] == '/' && (p + "/")[i..|p|] == Itoa(n);
    ItoaInjective(n, m);
  }

  /** Everything below a part file, or below the upload's directory, belongs to the upload. */
  lemma UnderPart(base: string, u: string, n: int, q: string)
    requires '/' !in u && Under(PartPath(base, u, n), q)
    ensures UploadOf(base, q) == Some(u) && PartsDir(base) <= q
  {
    UnderPartDir(base, u, q);
  }

  lemma UnderPartDir(base: string, u: string, q: string)
    requires '/' !in u && PartsDir(base) + u + "/" <= q
    ensures UploadOf(base, q) == Some(u) && PartsDir(base) <= q
  {
    var d := PartsDir(base);
    var rest := q[|d + u + "/"|..];
    assert q == d + (u + ['/'] + rest);
    var rel := u + ['/'] + rest;
    assert TrimPrefix(q, d) == rel && |rel| < |q|;
    IndexOfFirst(u, '/', rest);
    assert Index(rel, "/") == |u| && rel[..|u|] == u;
  }
}
