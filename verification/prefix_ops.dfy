/**
 The web UI's operations on all keys under a prefix.  Each pages through a listing of
 the bucket while it deletes or moves what it lists.
 */
module PrefixOps {
  import opened GoStrings
  import opened Wrappers
  import opened BucketTables
  import opened StoreModel
  import opened StoreSteps
  import opened StoreCore
  import opened Multipart
  import opened ObjectStore
  import opened Listing
  import opened KeyMoves
  import opened Collections

  ghost function KeysOf(w: World, b: string): set<string> {
    if b in w.dbs then w.dbs[b].objects.Keys else {}
  }

  lemma KeysAreFound(w: World, b: string)
    ensures forall k :: k in KeysOf(w, b) <==> Lookup(w, b, k) != NoSuchObject
  {
    assert forall k :: w.Has(b, k) <==> k in KeysOf(w, b);
  }

  /** Some of the keys under the prefix are gone; everything else reads as before. */
  ghost predicate Thinned(w: World, w': World, b: string, prefix: string) {
    forall b', k :: Lookup(w', b', k) == Lookup(w, b', k)
      || (b' == b && FoldedPrefix(prefix, k) && Lookup(w', b', k) == NoSuchObject)
  }

  ghost predicate NoneUnder(w: World, b: string, prefix: string) {
    forall k :: FoldedPrefix(prefix, k) ==> Lookup(w, b, k) == NoSuchObject
  }

  /** What is left under the prefix comes after the cursor. */
  ghost predicate Ahead(w: World, b: string, prefix: string, cursor: string) {
    cursor != "" ==> forall k :: FoldedPrefix(prefix, k) && Lookup(w, b, k) != NoSuchObject ==> Less(cursor, k)
  }

  /** The listed keys, from the i-th on, are still there, and nothing else up to the end of the page is. */
  ghost predicate PageLeft(w: World, b: string, prefix: string, page: seq<string>, i: nat, more: bool) {
    && (forall j :: i <= j < |page| ==> Lookup(w, b, page[j]) != NoSuchObject && FoldedPrefix(prefix, page[j]))
    && (forall k :: FoldedPrefix(prefix, k) && Lookup(w, b, k) != NoSuchObject ==>
      (exists j :: i <= j < |page| && page[j] == k) || (more && page != [] && Less(page[|page| - 1], k)))
  }

  /** These keys, each once, are there and start with the prefix up to case. */
  ghost predicate AllFound(w: World, b: string, prefix: string, page: seq<string>) {
    Distinct(page)
    && forall j :: 0 <= j < |page| ==> Lookup(w, b, page[j]) != NoSuchObject && FoldedPrefix(prefix, page[j])
  }

  /** What a listing says about the keys on its page, whatever the cursor. */
  ghost predicate PageOf(w: World, b: string, prefix: string, token: string, page: ListResult) {
    && AllFound(w, b, prefix, page.objects)
    && (page.truncated <==> |Rows(KeysOf(w, b), prefix, token)| > 1000)
    && (page.truncated ==> page.objects != [] && page.next != "")
    && (!page.truncated ==> page.objects == Rows(KeysOf(w, b), prefix, token))
    && (page.objects != [] ==> Matching(KeysOf(w, b), prefix) != {})
    && (!page.truncated && token == "" && page.objects == [] ==> Matching(KeysOf(w, b), prefix) == {})
  }

  lemma PageFound(w: World, b: string, prefix: string, token: string)
    requires "" !in KeysOf(w, b)
    ensures PageOf(w, b, prefix, token, Listed(KeysOf(w, b), prefix, "", token, 1000))
  {
    hide Listed, Rows, FoldedPrefix, Lookup;
    var keys := KeysOf(w, b);
    var page := Listed(keys, prefix, "", token, 1000);
    KeysAreFound(w, b);
    PageTakes(keys, prefix, token);
    assert forall j :: 0 <= j < |page.objects| ==> page.objects[j] in page.objects;
    assert page.objects != [] ==> page.objects[0] in Matching(keys, prefix);
    assert Matching(keys, prefix) - {} == Matching(keys, prefix) && KeySet([]) == {};
  }

  lemma PageNonEmpty(w: World, b: string, prefix: string, token: string, page: ListResult)
    requires PageOf(w, b, prefix, token, page)
    ensures page.truncated ==> page.objects != [] && page.next != ""
  {
  }

  /** What a page of a listing says about the store. */
  lemma PageRead(w: World, b: string, prefix: string, cursor: string, r: ListResult)
    requires b in w.dbs && "" !in KeysOf(w, b) && Ahead(w, b, prefix, cursor)
    requires r == Listed(KeysOf(w, b), prefix, "", cursor, 1000)
    ensures Ordered(r.objects) && PageLeft(w, b, prefix, r.objects, 0, r.truncated)
    ensures r.truncated ==> r.objects != [] && r.next == r.objects[|r.objects| - 1] && r.next != ""
  {
    hide Listed, Lookup, Rows, FoldedPrefix;
    var table := KeysOf(w, b);
    var rows := Rows(table, prefix, cursor);
    KeysAreFound(w, b);
    PageOfKeys(table, prefix, cursor, 1000);
    RowsAre(table, prefix, cursor);
    assert r.objects == rows[..|r.objects|];
    assert forall j :: 0 <= j < |r.objects| ==> r.objects[j] == rows[j] && rows[j] in rows;
    forall k | FoldedPrefix(prefix, k) && Lookup(w, b, k) != NoSuchObject
      ensures (exists j :: 0 <= j < |r.objects| && r.objects[j] == k)
        || (r.truncated && r.objects != [] && Less(r.objects[|r.objects| - 1], k))
    {
      assert k in rows;
      var j :| 0 <= j < |rows| && rows[j] == k;
      if j < |r.objects| { assert r.objects[j] == k; }
    }
    if r.truncated {
      TokenAdvances(table, prefix, cursor, 1000);
    }
  }

  /** One more of the listed keys is gone. */
  lemma PageShrinks(w: World, w': World, b: string, prefix: string, page: seq<string>, i: nat, more: bool)
    requires i < |page| && Ordered(page) && PageLeft(w, b, prefix, page, i, more)
    requires forall k :: Lookup(w', b, k) == if k == page[i] then NoSuchObject else Lookup(w, b, k)
    ensures PageLeft(w', b, prefix, page, i + 1, more)
  {
    hide Lookup;
    forall j | i < j < |page| ensures page[j] != page[i] {
      LessAsymmetric(page[i], page[j]);
    }
  }

  lemma PageDone(w: World, b: string, prefix: string, page: seq<string>, more: bool)
    requires PageLeft(w, b, prefix, page, |page|, more) && (more ==> page != [])
    ensures !more ==> NoneUnder(w, b, prefix)
    ensures more ==> Ahead(w, b, prefix, page[|page| - 1])
  {
  }

  lemma NothingListed(w: World, b: string, prefix: string, page: seq<string>)
    requires PageLeft(w, b, prefix, page, 0, false)
    ensures page == [] ==> NoneUnder(w, b, prefix)
    ensures page != [] ==> !NoneUnder(w, b, prefix)
  {
    if page != [] {
      assert FoldedPrefix(prefix, page[0]);
    }
  }

  lemma ThinnedByOne(w: World, w1: World, w2: World, b: string, prefix: string, k: string)
    requires Thinned(w, w1, b, prefix) && Updated(w1, w2, b, k, NoSuchObject, {}) && FoldedPrefix(prefix, k)
    requires KeysOf(w1, b) <= KeysOf(w, b) && k in KeysOf(w1, b)
    ensures Thinned(w, w2, b, prefix)
    ensures KeysOf(w2, b) == KeysOf(w1, b) - {k}
  {
    KeysAreFound(w1, b);
    KeysAreFound(w2, b);
    hide Lookup, FoldedPrefix;
  }

  // ------------------------------------------------------------ renaming

  /** What readers of a bucket find, by key. */
  ghost function Reading(w: World, b: string): map<string, Found> {
    map k | k in KeysOf(w, b) :: Lookup(w, b, k)
  }

  ghost predicate SameElsewhere(w: World, w': World, b: string) {
    forall b', k :: b' != b ==> Lookup(w', b', k) == Lookup(w, b', k)
  }

  /** These keys have been moved, and one more may have been copied; nothing else has changed. */
  ghost predicate MovedTo(w: World, w': World, b: string, moved: seq<string>, half: Option<string>,
                          oldPrefix: string, newPrefix: string) {
    var m := MoveAll(Reading(w, b), moved, oldPrefix, newPrefix);
    && SameElsewhere(w, w', b) && (half.Some? ==> half.value in m)
    && Reading(w', b) == if half.None? then m else m[NewKey(oldPrefix, newPrefix, half.value) := m[half.value]]
  }

  /** One key reads as something new, all others as before. */
  ghost predicate Stored(w: World, w': World, b: string, key: string, found: Found) {
    forall b', k :: Lookup(w', b', k) == if (b', k) == (b, key) then found else Lookup(w, b', k)
  }

  /** The one key is gone, the other reads as it did, unless they are the same, and all else as before. */
  ghost predicate Moved(w: World, w': World, b: string, oldKey: string, newKey: string) {
    forall b', k :: Lookup(w', b', k) ==
      if (b', k) == (b, oldKey) then NoSuchObject
      else if (b', k) == (b, newKey) then Lookup(w, b, oldKey)
      else Lookup(w, b', k)
  }

  /** What is found here may be stored again as a blob. */
  ghost predicate Storable(c: Config, found: Found) {
    found.Contents? ==> found.data in c.bodies
  }

  ghost predicate StorableUnder(c: Config, w: World, b: string, prefix: string) {
    forall k :: FoldedPrefix(prefix, k) ==> Storable(c, Lookup(w, b, k))
  }

  ghost predicate ReadsSame(w: World, w': World) {
    forall b, k :: Lookup(w', b, k) == Lookup(w, b, k)
  }

  lemma NothingMovedYet(w: World, b: string, oldPrefix: string, newPrefix: string)
    ensures MovedTo(w, w, b, [], None, oldPrefix, newPrefix)
  {
  }

  /**
   What a renaming that has come this far means where no copy lands under the old prefix and
   no key matches it by its case only: the keys moved read under their new names, and
   everything else in the bucket reads as before.
   */
  lemma RenamedExactly(w: World, w': World, b: string, moved: seq<string>, oldPrefix: string, newPrefix: string)
    requires MovedTo(w, w', b, moved, None, oldPrefix, newPrefix)
    requires Clear(KeysOf(w, b), oldPrefix, newPrefix) && Distinct(moved)
    requires forall k :: k in moved ==> k in Matching(KeysOf(w, b), oldPrefix) && oldPrefix <= k
    ensures Arrived(Reading(w, b), Reading(w', b), moved, oldPrefix, newPrefix) && SameElsewhere(w, w', b)
  {
    hide Arrived, NewKey, Lookup;
    ClearMoves(KeysOf(w, b), moved, oldPrefix, newPrefix);
    AllArrive(Reading(w, b), moved, oldPrefix, newPrefix);
  }

  lemma MovedKey(w: World, w': World, b: string, page: seq<string>, i: nat, mid: World,
                 oldPrefix: string, newPrefix: string)
    requires i < |page| && MovedTo(w, mid, b, page[..i], None, oldPrefix, newPrefix)
    requires Moved(mid, w', b, page[i], NewKey(oldPrefix, newPrefix, page[i]))
    requires Lookup(mid, b, page[i]) != NoSuchObject
    ensures MovedTo(w, w', b, page[..i + 1], None, oldPrefix, newPrefix)
  {
    hide NewKey, MoveAll;
    MoveAllNext(Reading(w, b), page, i, oldPrefix, newPrefix);
    OneMoved(mid, w', b, page[i], NewKey(oldPrefix, newPrefix, page[i]));
  }

  lemma OneMoved(w: World, w': World, b: string, k: string, k': string)
    requires Moved(w, w', b, k, k') && Lookup(w, b, k) != NoSuchObject
    ensures Reading(w', b) == MoveOne(Reading(w, b), k, k') && SameElsewhere(w, w', b)
  {
    KeysAreFound(w, b);
    KeysAreFound(w', b);
    hide Lookup;
  }

  lemma CopiedKey(w: World, w': World, b: string, page: seq<string>, i: nat, mid: World, copied: bool,
                  oldPrefix: string, newPrefix: string)
    requires i < |page| && MovedTo(w, mid, b, page[..i], None, oldPrefix, newPrefix)
    requires Lookup(mid, b, page[i]) != NoSuchObject
    requires if copied then Stored(mid, w', b, NewKey(oldPrefix, newPrefix, page[i]), Lookup(mid, b, page[i]))
      else ReadsSame(mid, w')
    ensures MovedTo(w, w', b, page[..i], if copied then Some(page[i]) else None, oldPrefix, newPrefix)
  {
    hide NewKey, MoveAll;
    OneCopied(mid, w', b, page[i], NewKey(oldPrefix, newPrefix, page[i]), copied);
  }

  lemma OneCopied(w: World, w': World, b: string, k: string, k': string, copied: bool)
    requires Lookup(w, b, k) != NoSuchObject
    requires if copied then Stored(w, w', b, k', Lookup(w, b, k)) else ReadsSame(w, w')
    ensures k in Reading(w, b) && SameElsewhere(w, w', b)
    ensures Reading(w', b) == if copied then Reading(w, b)[k' := Reading(w, b)[k]] else Reading(w, b)
  {
    KeysAreFound(w, b);
    KeysAreFound(w', b);
    hide Lookup;
  }

  /** A page moved after other keys. */
  lemma MovedFurther(w: World, w1: World, w2: World, b: string, moved: seq<string>, page: seq<string>,
                     half: Option<string>, oldPrefix: string, newPrefix: string)
    requires MovedTo(w, w1, b, moved, None, oldPrefix, newPrefix)
    requires MovedTo(w1, w2, b, page, half, oldPrefix, newPrefix)
    ensures MovedTo(w, w2, b, moved + page, half, oldPrefix, newPrefix)
  {
    MoveAllAppend(Reading(w, b), moved, page, oldPrefix, newPrefix);
  }

  /** Every key still to be moved is found, and moving one adds no contents. */
  lemma RestFound(c: Config, w: World, w': World, b: string, page: seq<string>, i: nat,
                  oldPrefix: string, newPrefix: string)
    requires Distinct(page) && i < |page|
    requires forall j :: i <= j < |page| ==> Lookup(w, b, page[j]) != NoSuchObject
    requires Moved(w, w', b, page[i], NewKey(oldPrefix, newPrefix, page[i]))
    requires StorableUnder(c, w, b, oldPrefix) && FoldedPrefix(oldPrefix, page[i])
    ensures forall j :: i < j < |page| ==> Lookup(w', b, page[j]) != NoSuchObject
    ensures StorableUnder(c, w', b, oldPrefix)
  {
    hide Lookup, FoldedPrefix, NewKey;
  }

  // ------------------------------------------------------------ totals

  function LengthOf(f: Found): nat {
    if f.Contents? then |f.data| else 0
  }

  /** How many bytes readers of these keys get. */
  ghost function ContentBytes(w: World, b: string, keys: seq<string>): nat {
    if keys == [] then 0 else ContentBytes(w, b, keys[..|keys| - 1]) + LengthOf(Lookup(w, b, keys[|keys| - 1]))
  }

  /** All keys of the listed buckets; a bucket that does not exist holds nothing. */
  ghost function UsedBytes(w: World, buckets: seq<string>): nat {
    if buckets == [] then 0
    else
      var b := buckets[|buckets| - 1];
      UsedBytes(w, buckets[..|buckets| - 1]) + ContentBytes(w, b, Rows(KeysOf(w, b), "", ""))
  }

  lemma {:induction false} ContentBytesAppend(w: World, b: string, s: seq<string>, t: seq<string>)
    ensures ContentBytes(w, b, s + t) == ContentBytes(w, b, s) + ContentBytes(w, b, t)
  {
    if t == [] {
      assert s + t == s;
    } else {
      ContentBytesAppend(w, b, s, t[..|t| - 1]);
      assert (s + t)[..|s + t| - 1] == s + t[..|t| - 1];
    }
  }

  /** The rest of a bucket, from a cursor on, is a page and the rest after it. */
  lemma BytesOfPage(w: World, b: string, cursor: string, r: ListResult)
    requires "" !in KeysOf(w, b) && r == Listed(KeysOf(w, b), "", "", cursor, 1000)
    ensures ContentBytes(w, b, Rows(KeysOf(w, b), "", cursor)) ==
      ContentBytes(w, b, r.objects) + if r.truncated then ContentBytes(w, b, Rows(KeysOf(w, b), "", r.next)) else 0
    ensures r.truncated ==> r.next != "" && |Rows(KeysOf(w, b), "", r.next)| < |Rows(KeysOf(w, b), "", cursor)|
  {
    hide Listed, Rows;
    PageOfKeys(KeysOf(w, b), "", cursor, 1000);
    if r.truncated {
      TokenAdvances(KeysOf(w, b), "", cursor, 1000);
      ContentBytesAppend(w, b, r.objects, Rows(KeysOf(w, b), "", r.next));
    }
  }

  ghost predicate DrawableFrom(c: Config, ids: nat -> string, drawn: nat, w: World) {
    && (forall m: nat, n: nat :: m < n ==> ids(m) != ids(n))
    && (forall n: nat :: n >= drawn ==> Fresh(c, w, ids(n)))
  }

  lemma DrawOne(c: Config, ids: nat -> string, drawn: nat, w: World, w': World)
    requires DrawableFrom(c, ids, drawn, w)
    ensures Fresh(c, w, ids(drawn))
    ensures w' == w || Contained(c, w, w', ids(drawn)) ==> DrawableFrom(c, ids, drawn + 1, w')
  {
    hide Fresh;
  }

  /** What storing under one key means to readers. */
  lemma PutReads(w: World, w': World, b: string, k: string, data: GoStrings.Bytes, id: string)
    ensures Updated(w, w', b, k, Contents(data), {id}) ==> Stored(w, w', b, k, Contents(data))
    ensures SameContents(w, w', {id}) ==> ReadsSame(w, w')
    ensures "" !in KeysOf(w, b) && k != "" && (Stored(w, w', b, k, Contents(data)) || ReadsSame(w, w')) ==>
      "" !in KeysOf(w', b)
  {
    KeysAreFound(w, b);
    KeysAreFound(w', b);
  }

  class Server {
    const objects: ObjectService
    const ids: nat -> string   // the random ids that will be drawn, in order
    var drawn: nat

    constructor (objects: ObjectService, ids: nat -> string)
      ensures this.objects == objects && this.ids == ids && drawn == 0
    {
      this.objects, this.ids, drawn := objects, ids, 0;
    }

    /** Ids still to be drawn have never been seen. */
    ghost predicate Drawable(w: World)
      reads this
    {
      DrawableFrom(objects.core.c, ids, drawn, w)
    }

    ghost predicate Ready(w: World, b: string)
      reads objects.core.dav, set b | b in objects.core.dbs :: objects.core.dbs[b]
    {
      objects.Wired() && objects.core.Valid() && w == objects.core.World() && "" !in KeysOf(w, b)
    }

    /** Adds up the sizes of all objects in the buckets, page by page. */
    method StorageUsedBytes(buckets: seq<string>) returns (total: nat)
      requires objects.core.Valid()
      requires forall b :: "" !in KeysOf(objects.core.World(), b)
      ensures total == UsedBytes(objects.core.World(), buckets)
    {
      hide Core.World, Core.Valid, Rows, Listed;
      ghost var w := objects.core.World();
      total := 0;
      for i := 0 to |buckets|
        invariant total == UsedBytes(w, buckets[..i])
      {
        assert buckets[..i + 1][..i] == buckets[..i];
        var bytes := BucketBytes(buckets[i]);
        total := total + bytes;
      }
      assert buckets[..|buckets|] == buckets;
    }

    method BucketBytes(b: string) returns (total: nat)
      requires objects.core.Valid() && "" !in KeysOf(objects.core.World(), b)
      ensures total == ContentBytes(objects.core.World(), b, Rows(KeysOf(objects.core.World(), b), "", ""))
    {
      hide Core.World, Rows, Listed, Inv, Lookup;
      ghost var w := objects.core.World();
      total := 0;
      var token := "";
      while true
        invariant ContentBytes(w, b, Rows(KeysOf(w, b), "", "")) ==
          total + ContentBytes(w, b, Rows(KeysOf(w, b), "", token))
        decreases |Rows(KeysOf(w, b), "", token)|
      {
        var listed := objects.List(b, "", "", token, 1000);
        if listed.Err? {
          NoBucketNoRows(w, b, token);
          return;
        }
        var (page, rows) := listed.value;
        ghost var before := total;
        for j := 0 to |page.objects|
          invariant total == before + ContentBytes(w, b, page.objects[..j])
        {
          assert page.objects[..j + 1][..j] == page.objects[..j];
          NothingUnreadable(objects.core.c, w, b, page.objects[j]);
          ReadableWhenPresent(objects.core.c, w, b, page.objects[j]);
          total := total + rows[j].size;
        }
        assert page.objects[..|page.objects|] == page.objects;
        BytesOfPage(w, b, token, page);
        if !page.truncated || page.next == "" {
          return;
        }
        token := page.next;
      }
    }

    /** A page of the keys under the prefix, and whether there are more after it. */
    method NextPage(b: string, prefix: string, token: string) returns (r: Result<ListResult, Error>)
      requires Ready(objects.core.World(), b)
      ensures b !in objects.core.dbs ==> r == Err(BucketNotFound)
      ensures b in objects.core.dbs ==>
        && r == Ok(Listed(KeysOf(objects.core.World(), b), prefix, "", token, 1000))
        && "" !in KeysOf(objects.core.World(), b)
        && PageOf(objects.core.World(), b, prefix, token, r.value)
        && (r.value.truncated ==> r.value.objects != [] && r.value.next != "")
        && (Ahead(objects.core.World(), b, prefix, token) ==>
          && Ordered(r.value.objects)
          && PageLeft(objects.core.World(), b, prefix, r.value.objects, 0, r.value.truncated)
          && (r.value.truncated ==> r.value.next == r.value.objects[|r.value.objects| - 1]))
    {
      hide Core.World, Core.Valid, Listed, PageLeft, Ahead, Ordered, PageOf, Rows;
      ghost var w := objects.core.World();
      var listed := objects.List(b, prefix, "", token, 1000);
      if listed.Err? { return Err(listed.error); }
      assert w.dbs[b].objects.Keys == KeysOf(w, b);
      PageFound(w, b, prefix, token);
      PageNonEmpty(w, b, prefix, token, listed.value.0);
      if Ahead(w, b, prefix, token) { PageRead(w, b, prefix, token, listed.value.0); }
      return Ok(listed.value.0);
    }

    /**
     Deletes every key the prefix matches, whatever the number of pages.  All other keys
     keep their contents, although deleted objects may share blobs with them.
     */
    method DeletePrefix(b: string, prefix: string) returns (r: Result<(), Error>)
      requires Ready(objects.core.World(), b)
      modifies objects.core.Repr()
      ensures Ready(objects.core.World(), b)
      ensures Thinned(old(objects.core.World()), objects.core.World(), b, prefix)
      ensures b !in objects.core.dbs ==> r == Err(BucketNotFound)
      ensures b in objects.core.dbs ==>
        && r in {Ok(()), Err(ObjectNotFound), Err(SyncFailed)}
        && (r == Err(ObjectNotFound) <==> NoneUnder(old(objects.core.World()), b, prefix))
        && (r.Ok? ==> NoneUnder(objects.core.World(), b, prefix))
        && (r == Err(SyncFailed) ==> objects.core.dav.faults > old(objects.core.dav.faults))
    {
      hide Core.World, Core.Valid, Core.Open, Lookup, Updated, Listed, FoldedPrefix, Contained, KeysOf;
      hide PageLeft, Thinned, NoneUnder, Ahead, Ordered, Server.Ready, PageOf, Rows, Matching;
      ghost var core := objects.core;
      ghost var w := core.World();
      ThinnedAtFirst(w, b, prefix);
      var deleted := false;
      var token := "";
      while true
        invariant Ready(core.World(), b) && KeysOf(core.World(), b) <= KeysOf(w, b)
        invariant Thinned(w, core.World(), b, prefix) && Ahead(core.World(), b, prefix, token)
        invariant !deleted ==> core.World() == w && token == ""
        invariant deleted ==> !NoneUnder(w, b, prefix)
        invariant core.dav.faults >= old(core.dav.faults)
        decreases KeysOf(core.World(), b)
      {
        ghost var w1 := core.World();
        var listed := NextPage(b, prefix, token);
        if listed.Err? { return Err(listed.error); }
        var page := listed.value;
        if !deleted && page.objects == [] { NothingListed(w1, b, prefix, page.objects); }
        var failed := DeleteListed(b, prefix, page.objects, page.truncated, w);
        if failed.Some? { return Err(failed.value); }
        PageDone(core.World(), b, prefix, page.objects, page.truncated);
        if page.objects != [] { deleted := true; }
        if !page.truncated || page.next == "" {
          break;
        }
        token := page.next;
        assert deleted && page.objects[0] in KeysOf(w1, b);
      }
      if !deleted { return Err(ObjectNotFound); }
      return Ok(());
    }

    /** Deletes the keys of one page, and stops at the first failure. */
    method DeleteListed(b: string, prefix: string, page: seq<string>, ghost more: bool, ghost w: World)
        returns (failed: Option<Error>)
      requires Ready(objects.core.World(), b) && b in objects.core.dbs
      requires Ordered(page) && PageLeft(objects.core.World(), b, prefix, page, 0, more)
      requires Thinned(w, objects.core.World(), b, prefix) && KeysOf(objects.core.World(), b) <= KeysOf(w, b)
      modifies objects.core.Repr()
      ensures Ready(objects.core.World(), b) && objects.core.dav.faults >= old(objects.core.dav.faults)
      ensures Thinned(w, objects.core.World(), b, prefix)
      ensures KeysOf(objects.core.World(), b) <= KeysOf(old(objects.core.World()), b)
      ensures page == [] ==> objects.core.World() == old(objects.core.World()) && failed.None?
      ensures page != [] ==>
        page[0] in KeysOf(old(objects.core.World()), b) && page[0] !in KeysOf(objects.core.World(), b)
        && !NoneUnder(old(objects.core.World()), b, prefix)
      ensures failed.Some? ==> failed.value == SyncFailed && objects.core.dav.faults > old(objects.core.dav.faults)
      ensures failed.None? ==> PageLeft(objects.core.World(), b, prefix, page, |page|, more)
    {
      hide Core.World, Core.Valid, Core.Open, Lookup, Updated, FoldedPrefix, Contained, KeysOf;
      hide PageLeft, Thinned, Ordered, NoneUnder, StaleBlob;
      ghost var core := objects.core;
      ghost var w0 := core.World();
      if page != [] { FirstListed(w0, b, prefix, page, more); }
      for i := 0 to |page|
        invariant Ready(core.World(), b) && KeysOf(core.World(), b) <= KeysOf(w0, b)
        invariant Thinned(w, core.World(), b, prefix) && PageLeft(core.World(), b, prefix, page, i, more)
        invariant core.dav.faults >= old(core.dav.faults)
        invariant i == 0 ==> core.World() == w0
        invariant i > 0 ==> page[0] !in KeysOf(core.World(), b)
      {
        ghost var w1 := core.World();
        FirstLeft(w1, b, prefix, page, i, more);
        var r := objects.Delete(b, page[i]);
        ThinnedByOne(w, w1, core.World(), b, prefix, page[i]);
        if r.Err? { return Some(r.error); }
        DeletedOne(w1, core.World(), b, page[i]);
        PageShrinks(w1, core.World(), b, prefix, page, i, more);
      }
      return None;
    }

    /**
     Reads an object and stores it again under another key.  `copied` says whether the
     new key took the contents, which it may have even when an error is reported.
     */
    method CopyObject(b: string, oldKey: string, newKey: string) returns (r: Result<(), Error>, ghost copied: bool)
      requires Ready(objects.core.World(), b) && Drawable(objects.core.World()) && newKey != ""
      requires Storable(objects.core.c, Lookup(objects.core.World(), b, oldKey))
      modifies this, objects.core.Repr()
      ensures Ready(objects.core.World(), b) && Drawable(objects.core.World())
      ensures objects.core.dav.faults >= old(objects.core.dav.faults)
      ensures copied ==>
        && Lookup(old(objects.core.World()), b, oldKey).Contents?
        && Stored(old(objects.core.World()), objects.core.World(), b, newKey,
                  Lookup(old(objects.core.World()), b, oldKey))
      ensures !copied ==> ReadsSame(old(objects.core.World()), objects.core.World())
      ensures r.Ok? ==> copied && old(objects.core.Open(b)) && objects.core.Open(b)
      ensures b in objects.core.dbs ==> r != Err(BucketNotFound)
      ensures b in objects.core.dbs && Lookup(old(objects.core.World()), b, oldKey) != NoSuchObject ==>
        r.Ok? || !old(objects.core.Open(b)) || objects.core.dav.faults > old(objects.core.dav.faults)
      ensures r == Err(ObjectNotFound) ==> Lookup(old(objects.core.World()), b, oldKey) == NoSuchObject
      ensures b !in objects.core.dbs ==> r == Err(BucketNotFound)
      ensures b in objects.core.dbs && Lookup(old(objects.core.World()), b, oldKey) == NoSuchObject ==>
        r == Err(ObjectNotFound)
    {
      hide Core.World, Core.Valid, Core.Open, Lookup, Fresh, DrawableFrom, Contained, Updated, SameContents;
      hide Stored, ReadsSame, KeysOf, ObjectService.Splits, Core.CrashSafe, StaleBlob;
      ghost var core := objects.core;
      ghost var w := core.World();
      NothingRead(w);
      copied := false;
      var got := objects.Get(b, oldKey);
      if got.Err? { return Err(got.error), false; }
      var (obj, data) := got.value;
      var id := ids(drawn);
      DrawOne(core.c, ids, drawn, w, w);
      var put := objects.Put(b, newKey, obj.contentType, data, id);
      DrawOne(core.c, ids, drawn, w, core.World());
      drawn := drawn + 1;
      PutReads(w, core.World(), b, newKey, data, id);
      copied := Took(put);
      return if put.Ok? then Ok(()) else Err(put.error), copied;
    }

    /**
     Renames one object: copies it, and when that succeeds deletes the original, whether or
     not this can be published.  Renaming an object to its own name loses it.  `mid` is the
     store between the two steps.
     */
    method MoveObject(b: string, oldKey: string, newKey: string)
        returns (r: Result<(), Error>, ghost copied: bool, ghost mid: World)
      requires Ready(objects.core.World(), b) && Drawable(objects.core.World()) && newKey != ""
      requires Storable(objects.core.c, Lookup(objects.core.World(), b, oldKey))
      modifies this, objects.core.Repr()
      ensures Ready(objects.core.World(), b) && Drawable(objects.core.World())
      ensures objects.core.dav.faults >= old(objects.core.dav.faults)
      ensures copied ==>
        && Lookup(old(objects.core.World()), b, oldKey).Contents?
        && Stored(old(objects.core.World()), mid, b, newKey, Lookup(old(objects.core.World()), b, oldKey))
      ensures !copied ==> ReadsSame(old(objects.core.World()), mid)
      ensures r.Err? ==> mid == objects.core.World()
      ensures r.Ok? ==>
        && copied && Updated(mid, objects.core.World(), b, oldKey, NoSuchObject, {})
        && Moved(old(objects.core.World()), objects.core.World(), b, oldKey, newKey)
        && old(objects.core.Open(b)) && objects.core.Open(b)
      ensures r.Ok? ==>
        (Lookup(objects.core.World(), b, newKey) == Lookup(old(objects.core.World()), b, oldKey) <==> newKey != oldKey)
      ensures b !in objects.core.dbs ==> r == Err(BucketNotFound)
      ensures b in objects.core.dbs ==> r != Err(BucketNotFound)
      ensures b in objects.core.dbs && Lookup(old(objects.core.World()), b, oldKey) == NoSuchObject ==>
        r == Err(ObjectNotFound)
      ensures b in objects.core.dbs && Lookup(old(objects.core.World()), b, oldKey) != NoSuchObject ==>
        && r != Err(ObjectNotFound)
        && (r.Ok? || !old(objects.core.Open(b)) || objects.core.dav.faults > old(objects.core.dav.faults))
    {
      hide Core.World, Core.Valid, Core.Open, Lookup, Updated, Fresh, Stored, ReadsSame, Moved, KeysOf, Drawable;
      hide Contained;
      ghost var core := objects.core;
      ghost var w := core.World();
      r, copied := CopyObject(b, oldKey, newKey);
      mid := core.World();
      if r.Err? { return; }
      CopyLeaves(w, mid, b, oldKey, newKey);
      var _ := objects.Delete(b, oldKey);
      NoneEmptyAfter(mid, core.World(), b, oldKey);
      MovedBoth(w, mid, core.World(), b, oldKey, newKey);
      KeepDrawable(mid, core.World());
    }

    /**
     Moves the keys under one prefix to the other, page by page, and says what has become of
     them after this many pages at most: `moved` lists them in order, and a failure can leave
     one more, `half`, copied but not deleted.  Where no copy lands under the old prefix, and
     where one page holds all keys, the loop ends; where copies land beyond a full page, it
     does not.
     */
    method RenamePrefix(b: string, oldPrefix: string, newPrefix: string, pages: nat)
        returns (r: Option<Result<(), Error>>, ghost moved: seq<string>, ghost half: Option<string>)
      requires Ready(objects.core.World(), b) && Drawable(objects.core.World()) && newPrefix != ""
      requires StorableUnder(objects.core.c, objects.core.World(), b, oldPrefix)
      modifies this, objects.core.Repr()
      ensures Ready(objects.core.World(), b)
      ensures oldPrefix == newPrefix ==> r == Some(Ok(())) && objects.core.World() == old(objects.core.World())
      ensures oldPrefix != newPrefix ==>
        var keys := KeysOf(old(objects.core.World()), b);
        && MovedTo(old(objects.core.World()), objects.core.World(), b, moved, half, oldPrefix, newPrefix)
        && (r in {None, Some(Ok(()))} ==> half.None?)
        && (pages > 0 ==> (b !in objects.core.dbs <==> r == Some(Err(BucketNotFound))))
        && (pages > 0 && b in objects.core.dbs ==>
          (r == Some(Err(ObjectNotFound)) <==> Matching(keys, oldPrefix) == {}))
        && (r.Some? && r.value.Err? && r.value.error !in {BucketNotFound, ObjectNotFound} ==>
          !old(objects.core.Open(b)) || objects.core.dav.faults > old(objects.core.dav.faults))
        && (Clear(keys, oldPrefix, newPrefix) ==>
          && Distinct(moved) && (forall k :: k in moved ==> k in Matching(keys, oldPrefix))
          && (half.Some? ==> half.value in Matching(keys, oldPrefix) && half.value !in moved)
          && (r == Some(Ok(())) ==> KeySet(moved) == Matching(keys, oldPrefix))
          && (pages > |Matching(keys, oldPrefix)| ==> r.Some?))
        && (|Rows(keys, oldPrefix, "")| <= 1000 && pages > 0 ==>
          r.Some? && (r == Some(Ok(())) ==> moved == Rows(keys, oldPrefix, "")))
        && (Chased(keys, oldPrefix, newPrefix, "") && b in objects.core.dbs ==>
          r.None? || !old(objects.core.Open(b)) || objects.core.dav.faults > old(objects.core.dav.faults))
    {
      hide Core.World, Core.Valid, Core.Open, Lookup, Listed, FoldedPrefix, Ordered, MovedTo, StorableUnder, KeysOf;
      hide Matching, Clear, Chased, Proceeding, AllFound, Rows, NewKey, MoveAll, Server.Ready, Server.Drawable;
      ghost var core := objects.core;
      ghost var w := core.World();
      ghost var keys := KeysOf(w, b);
      moved, half := [], None;
      if oldPrefix == newPrefix { return Some(Ok(())), moved, half; }
      NothingMovedYet(w, b, oldPrefix, newPrefix);
      RenamingStarts(keys, oldPrefix);
      var any := false;
      var token := "";
      for round := 0 to pages
        invariant Ready(core.World(), b) && Drawable(core.World())
        invariant StorableUnder(core.c, core.World(), b, oldPrefix) && half.None?
        invariant MovedTo(w, core.World(), b, moved, None, oldPrefix, newPrefix)
        invariant round == 0 ==> core.World() == w && token == "" && moved == [] && !any
        invariant round > 0 ==> any && b in core.dbs && Matching(keys, oldPrefix) != {}
        invariant round > 0 ==> |Rows(keys, oldPrefix, "")| > 1000
        invariant Clear(keys, oldPrefix, newPrefix) ==>
          Proceeding(keys, KeysOf(core.World(), b), oldPrefix, token, moved) && |moved| >= round
        invariant Chased(keys, oldPrefix, newPrefix, "") ==>
          Chased(KeysOf(core.World(), b), oldPrefix, newPrefix, token)
        invariant core.dav.faults >= old(core.dav.faults) && core.Open(b) == old(core.Open(b))
      {
        ghost var w1 := core.World();
        var listed := NextPage(b, oldPrefix, token);
        if listed.Err? { return Some(Err(listed.error)), moved, half; }
        var page := listed.value;
        var failed;
        ghost var done;
        failed, done, half := MoveListed(b, oldPrefix, newPrefix, page.objects);
        MovedFurther(w, w1, core.World(), b, moved, page.objects[..done], half, oldPrefix, newPrefix);
        if Clear(keys, oldPrefix, newPrefix) {
          ClearPage(keys, w1, core.World(), b, oldPrefix, newPrefix, token, moved, done, half);
        }
        moved := moved + page.objects[..done];
        if failed.Some? { return Some(Err(failed.value)), moved, half; }
        assert page.objects[..done] == page.objects;
        if Chased(keys, oldPrefix, newPrefix, "") {
          ChasedPageMoved(w1, core.World(), b, oldPrefix, newPrefix, token);
        }
        if page.objects != [] { any := true; }
        if !page.truncated || page.next == "" {
          return if any then Some(Ok(())) else Some(Err(ObjectNotFound)), moved, half;
        }
        token := page.next;
      }
      if Clear(keys, oldPrefix, newPrefix) { Bounded(keys, KeysOf(core.World(), b), oldPrefix, token, moved); }
      return None, moved, half;
    }

    /** Deleting an object draws no id. */
    lemma KeepDrawable(w: World, w': World)
      requires Drawable(w) && forall id :: Contained(objects.core.c, w, w', id)
      ensures Drawable(w')
    {
      hide Fresh;
      forall n: nat | n >= drawn ensures Fresh(objects.core.c, w', ids(n)) {
        assert Contained(objects.core.c, w, w', ids(n + 1));
      }
    }

    /** Copies and deletes the keys of one page; only a failed copy stops it. */
    method MoveListed(b: string, oldPrefix: string, newPrefix: string, page: seq<string>)
        returns (failed: Option<Error>, ghost done: nat, ghost half: Option<string>)
      requires Ready(objects.core.World(), b) && Drawable(objects.core.World()) && newPrefix != ""
      requires b in objects.core.dbs && AllFound(objects.core.World(), b, oldPrefix, page)
      requires StorableUnder(objects.core.c, objects.core.World(), b, oldPrefix)
      modifies this, objects.core.Repr()
      ensures Ready(objects.core.World(), b) && Drawable(objects.core.World())
      ensures objects.core.dav.faults >= old(objects.core.dav.faults)
      ensures done <= |page| && (failed.None? <==> done == |page|)
      ensures MovedTo(old(objects.core.World()), objects.core.World(), b, page[..done], half, oldPrefix, newPrefix)
      ensures half.Some? ==> failed.Some? && half.value == page[done]
      ensures failed.None? ==>
        && StorableUnder(objects.core.c, objects.core.World(), b, oldPrefix)
        && objects.core.Open(b) == old(objects.core.Open(b))
      ensures failed.Some? ==>
        && failed.value !in {BucketNotFound, ObjectNotFound}
        && (!old(objects.core.Open(b)) || objects.core.dav.faults > old(objects.core.dav.faults))
    {
      hide Core.World, Core.Valid, Core.Open, Lookup, Updated, FoldedPrefix, MovedTo, Moved, Stored, ReadsSame;
      hide StorableUnder, NewKey, Fresh, Drawable, Contained, KeysOf;
      ghost var core := objects.core;
      ghost var w := core.World();
      half := None;
      NothingMovedYet(w, b, oldPrefix, newPrefix);
      assert page[..0] == [];
      for i := 0 to |page|
        invariant Ready(core.World(), b) && Drawable(core.World())
        invariant MovedTo(w, core.World(), b, page[..i], None, oldPrefix, newPrefix) && half.None?
        invariant forall j :: i <= j < |page| ==> Lookup(core.World(), b, page[j]) != NoSuchObject
        invariant StorableUnder(core.c, core.World(), b, oldPrefix)
        invariant core.dav.faults >= old(core.dav.faults) && core.Open(b) == old(core.Open(b))
      {
        ghost var w1 := core.World();
        var newKey := newPrefix + TrimPrefix(page[i], oldPrefix);
        assert newKey == NewKey(oldPrefix, newPrefix, page[i]) && newKey != "" by {
          NewKeyIs(oldPrefix, newPrefix, page[i]);
        }
        StorableKey(core.c, w1, b, oldPrefix, page[i]);
        var r;
        ghost var copied, mid;
        r, copied, mid := MoveObject(b, page[i], newKey);
        if r.Err? {
          CopiedKey(w, core.World(), b, page, i, w1, copied, oldPrefix, newPrefix);
          return Some(r.error), i, if copied then Some(page[i]) else None;
        }
        MovedKey(w, core.World(), b, page, i, w1, oldPrefix, newPrefix);
        RestFound(core.c, w1, core.World(), b, page, i, oldPrefix, newPrefix);
      }
      assert page[..|page|] == page;
      return None, |page|, None;
    }
  }

  lemma NewKeyIs(oldPrefix: string, newPrefix: string, k: string)
    ensures NewKey(oldPrefix, newPrefix, k) == newPrefix + TrimPrefix(k, oldPrefix)
  {
  }

  lemma StorableKey(c: Config, w: World, b: string, prefix: string, k: string)
    requires StorableUnder(c, w, b, prefix) && FoldedPrefix(prefix, k)
    ensures Storable(c, Lookup(w, b, k))
  {
  }

  /** A page moved where keys only leave the old prefix. */
  lemma ClearPage(keys: set<string>, w: World, w': World, b: string, oldPrefix: string, newPrefix: string,
                  token: string, moved: seq<string>, done: nat, half: Option<string>)
    requires "" !in KeysOf(w, b) && Clear(keys, oldPrefix, newPrefix)
    requires Proceeding(keys, KeysOf(w, b), oldPrefix, token, moved)
    requires var page := Listed(KeysOf(w, b), oldPrefix, "", token, 1000).objects;
      && done <= |page| && (half.Some? ==> done < |page| && half.value == page[done])
      && MovedTo(w, w', b, page[..done], half, oldPrefix, newPrefix)
    ensures var page := Listed(KeysOf(w, b), oldPrefix, "", token, 1000);
      var moved' := moved + page.objects[..done];
      && Distinct(moved') && (forall k :: k in moved' ==> k in Matching(keys, oldPrefix))
      && (half.Some? ==> half.value in Matching(keys, oldPrefix) && half.value !in moved')
      && (half.None? && done == |page.objects| ==>
        if page.truncated then
          Proceeding(keys, KeysOf(w', b), oldPrefix, page.next, moved') && |moved'| > |moved|
        else KeySet(moved') == Matching(keys, oldPrefix))
  {
    hide Listed, NewKey, Lookup, Proceeding, MoveAll;
    var m := Reading(w, b);
    var page := Listed(m.Keys, oldPrefix, "", token, 1000);
    assert m.Keys == KeysOf(w, b) && Reading(w', b).Keys == KeysOf(w', b);
    ProceedingTakes(keys, m.Keys, oldPrefix, token, moved, done);
    if half.None? && done == |page.objects| {
      assert page.objects[..done] == page.objects;
      ProceedingNext(keys, m, oldPrefix, newPrefix, token, moved);
    }
  }

  /** A page moved where the copies land beyond it: another page follows. */
  lemma ChasedPageMoved(w: World, w': World, b: string, oldPrefix: string, newPrefix: string, token: string)
    requires Chased(KeysOf(w, b), oldPrefix, newPrefix, token)
    requires var page := Listed(KeysOf(w, b), oldPrefix, "", token, 1000).objects;
      MovedTo(w, w', b, page, None, oldPrefix, newPrefix)
    ensures var page := Listed(KeysOf(w, b), oldPrefix, "", token, 1000);
      page.truncated && page.next != "" && Chased(KeysOf(w', b), oldPrefix, newPrefix, page.next)
  {
    hide Listed, NewKey, Lookup, Chased, MoveAll;
    assert Reading(w, b).Keys == KeysOf(w, b) && Reading(w', b).Keys == KeysOf(w', b);
    ChasedNext(Reading(w, b), oldPrefix, newPrefix, token);
  }

  lemma Bounded(keys: set<string>, now: set<string>, prefix: string, token: string, moved: seq<string>)
    requires Proceeding(keys, now, prefix, token, moved)
    ensures Distinct(moved) && (forall k :: k in moved ==> k in Matching(keys, prefix))
    ensures |moved| <= |Matching(keys, prefix)|
  {
    DistinctSize(moved, Matching(keys, prefix));
  }

  lemma CopyLeaves(w: World, w': World, b: string, oldKey: string, newKey: string)
    requires Lookup(w, b, oldKey).Contents? && Stored(w, w', b, newKey, Lookup(w, b, oldKey))
    ensures Lookup(w', b, oldKey).Contents? && w'.Has(b, oldKey)
  {
  }

  lemma MovedBoth(w: World, mid: World, w': World, b: string, oldKey: string, newKey: string)
    requires Lookup(w, b, oldKey).Contents? && Stored(w, mid, b, newKey, Lookup(w, b, oldKey))
    requires Updated(mid, w', b, oldKey, NoSuchObject, {})
    ensures Moved(w, w', b, oldKey, newKey)
    ensures Lookup(w', b, newKey) == Lookup(w, b, oldKey) <==> newKey != oldKey
  {
    hide Lookup;
  }

  lemma NoneEmptyAfter(w: World, w': World, b: string, k: string)
    requires "" !in KeysOf(w, b) && Updated(w, w', b, k, NoSuchObject, {})
    ensures "" !in KeysOf(w', b)
  {
    KeysAreFound(w, b);
    KeysAreFound(w', b);
  }

  lemma NothingRead(w: World)
    ensures ReadsSame(w, w)
  {
  }

  lemma NoBucketNoRows(w: World, b: string, token: string)
    requires b !in w.dbs
    ensures ContentBytes(w, b, Rows(KeysOf(w, b), "", token)) == 0
  {
    RowsAre(KeysOf(w, b), "", token);
    assert Rows(KeysOf(w, b), "", token) == [];
  }

  lemma ReadableWhenPresent(c: Config, w: World, b: string, k: string)
    requires Inv(c, w) && w.Has(b, k)
    ensures LengthOf(Lookup(w, b, k)) == w.Obj(b, k).size
  {
    NothingUnreadable(c, w, b, k);
  }

  lemma DeletedOne(w: World, w': World, b: string, k: string)
    requires Updated(w, w', b, k, NoSuchObject, {})
    ensures forall x :: Lookup(w', b, x) == if x == k then NoSuchObject else Lookup(w, b, x)
  {
  }

  lemma FirstLeft(w: World, b: string, prefix: string, page: seq<string>, i: nat, more: bool)
    requires i < |page| && PageLeft(w, b, prefix, page, i, more)
    ensures w.Has(b, page[i]) && page[i] in KeysOf(w, b) && FoldedPrefix(prefix, page[i])
  {
    KeysAreFound(w, b);
  }

  lemma FirstListed(w: World, b: string, prefix: string, page: seq<string>, more: bool)
    requires page != [] && PageLeft(w, b, prefix, page, 0, more)
    ensures page[0] in KeysOf(w, b) && !NoneUnder(w, b, prefix)
  {
    FirstLeft(w, b, prefix, page, 0, more);
    KeysAreFound(w, b);
  }

  lemma ThinnedAtFirst(w: World, b: string, prefix: string)
    ensures Thinned(w, w, b, prefix) && Ahead(w, b, prefix, "")
  {
  }
}
