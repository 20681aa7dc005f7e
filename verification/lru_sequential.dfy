/**
 The cache of open bucket databases when every caller releases what it got before the
 next call: the list is then a prefix of the most-recently-used order of all accesses.
 */
module LruSequential {
  import opened Wrappers
  import opened Collections

  /** An open bucket database, as the list holds it. */
  class Handle {
    const id: string
    var open: bool

    constructor (id: string)
      ensures this.id == id && open
    {
      this.id := id;
      open := true;
    }
  }

  /** The ids in the list after a successful Get. */
  function Touched(s: seq<string>, id: string, cap: int): seq<string> {
    if id in s then [id] + Without(s, id)
    else [id] + if |s| >= cap && s != [] then s[..|s| - 1] else s
  }

  /** The ids of the handles in a list. */
  function IdsOf(s: seq<Handle>): (r: seq<string>)
    ensures |r| == |s| && forall i :: 0 <= i < |s| ==> r[i] == s[i].id
  {
    seq(|s|, i requires 0 <= i < |s| => s[i].id)
  }

  function PositionFrom(s: seq<Handle>, h: Handle): (i: nat)
    requires h in s
    ensures i < |s| && s[i] == h
  {
    if s[0] == h then 0 else 1 + PositionFrom(s[1..], h)
  }

  /** Taking a handle out of the middle of a list. */
  lemma Unlinked(s: seq<Handle>, i: nat)
    requires i < |s| && Distinct(IdsOf(s))
    ensures IdsOf(s[..i] + s[i + 1..]) == Without(IdsOf(s), s[i].id)
    ensures forall h :: h in s[..i] + s[i + 1..] <==> h in s && h != s[i]
    ensures Distinct(IdsOf(s[..i] + s[i + 1..]))
  {
    var ids := IdsOf(s);
    assert ids[i] == s[i].id;
    WithoutAt(ids, i);
    assert IdsOf(s[..i] + s[i + 1..]) == ids[..i] + ids[i + 1..];
    WithoutMembers(ids, s[i].id);
    UnlinkedMembers(s, i);
  }

  /** The map names exactly the listed entries. */
  ghost predicate AreLinked(items: map<string, Handle>, order: seq<Handle>) {
    && Distinct(IdsOf(order))
    && (forall h :: h in order ==> h.id in items && items[h.id] == h)
    && (forall id :: id in items ==> items[id] in order && items[id].id == id)
  }

  lemma LinkedAlike(items: map<string, Handle>, s: seq<Handle>, t: seq<Handle>)
    requires AreLinked(items, s) && Distinct(IdsOf(t)) && forall h :: h in t <==> h in s
    ensures AreLinked(items, t)
  {
  }

  lemma LinkedIds(items: map<string, Handle>, s: seq<Handle>)
    requires AreLinked(items, s)
    ensures Distinct(IdsOf(s))
  {
  }

  /** Moving an entry to the front keeps the entries and puts its id first. */
  lemma Fronted(s: seq<Handle>, i: nat)
    requires i < |s| && Distinct(IdsOf(s))
    ensures var t := [s[i]] + (s[..i] + s[i + 1..]);
      && Distinct(IdsOf(t)) && IdsOf(t) == [s[i].id] + Without(IdsOf(s), s[i].id)
      && s[i].id in IdsOf(s) && |t| == |s| && forall h :: h in t <==> h in s
  {
    hide IdsOf;
    var rest := s[..i] + s[i + 1..];
    Unlinked(s, i);
    assert IdsOf(s)[i] == s[i].id;
    FirstId(s[i], rest);
    WithoutMembers(IdsOf(s), s[i].id);
    DistinctCons(s[i].id, IdsOf(rest));
  }

  lemma FirstId(h: Handle, s: seq<Handle>)
    ensures IdsOf([h] + s) == [h.id] + IdsOf(s)
  {
  }

  lemma UnlinkedMembers(s: seq<Handle>, i: nat)
    requires i < |s| && Distinct(IdsOf(s))
    ensures forall h :: h in s[..i] + s[i + 1..] <==> h in s && h != s[i]
  {
    var rest := s[..i] + s[i + 1..];
    assert s == s[..i] + [s[i]] + s[i + 1..];
    assert forall k :: 0 <= k < |s| && k != i ==> IdsOf(s)[k] != IdsOf(s)[i];
    assert forall k :: 0 <= k < i ==> s[..i][k] != s[i];
    assert forall k :: i < k < |s| ==> s[k] != s[i];
  }

  lemma OpenedIds(s: seq<Handle>, h: Handle, cap: int)
    requires h.id !in IdsOf(s)
    ensures IdsOf([h] + if |s| >= cap && s != [] then s[..|s| - 1] else s) == Touched(IdsOf(s), h.id, cap)
  {
    if |s| >= cap && s != [] {
      assert IdsOf([h] + s[..|s| - 1]) == [h.id] + IdsOf(s)[..|s| - 1];
    } else {
      assert IdsOf([h] + s) == [h.id] + IdsOf(s);
    }
  }

  class LRUCache {
    const cap: int
    var items: map<string, Handle>
    var order: seq<Handle>   // most recently used first

    /** The map and the list hold the same entries. */
    ghost predicate Linked()
      reads this
    {
      AreLinked(items, order)
    }

    ghost predicate Valid()
      reads this, order
    {
      && Linked()
      && (forall h :: h in order ==> h.open)
      && |order| <= if cap >= 1 then cap else 1
    }

    ghost function Ids(): seq<string>
      reads this
    {
      IdsOf(order)
    }

    constructor (cap: int)
      ensures Valid() && this.cap == cap && order == []
    {
      this.cap := cap;
      items := map[];
      order := [];
    }

    method MoveToFront(h: Handle)
      requires Linked() && h in order
      modifies this
      ensures Linked() && items == old(items)
      ensures Ids() == [h.id] + Without(old(Ids()), h.id) && h.id in old(Ids())
      ensures forall x :: x in order <==> x in old(order)
      ensures |order| == |old(order)|
    {
      hide IdsOf, Without, AreLinked, Distinct;
      var i := PositionFrom(order, h);
      LinkedIds(items, order);
      Fronted(order, i);
      var fronted := [h] + (order[..i] + order[i + 1..]);
      LinkedAlike(items, order, fronted);
      order := fronted;
    }

    /** Takes the last entry out of the map and the list and closes it. */
    method Evict()
      requires Valid() && order != []
      modifies this, order
      ensures Valid() && order == old(order)[..|old(order)| - 1]
      ensures items.Keys <= old(items).Keys
      ensures !old(order)[|old(order)| - 1].open && old(order)[|old(order)| - 1] !in order
      ensures forall h :: h in order ==> h in old(order)
    {
      var n := |order| - 1;
      var victim := order[n];
      Unlinked(order, n);
      assert order[..n] + order[n + 1..] == order[..n];
      items := items - {victim.id};
      order := order[..n];
      victim.open := false;
    }

    method PushFront(h: Handle)
      requires Linked() && h.id !in items
      modifies this
      ensures Linked() && order == [h] + old(order)
    {
      NotListed(h.id);
      DistinctCons(h.id, IdsOf(order));
      assert IdsOf([h] + order) == [h.id] + IdsOf(order);
      order := [h] + order;
      items := items[h.id := h];
    }

    /**
     Moves a cached database to the front, or opens it and evicts the last one of a full
     list.  The evicted database is closed, every other one stays open, and a failed open
     changes nothing.
     */
    method Get(id: string) returns (db: Option<Handle>)
      requires Valid()
      modifies this, order
      ensures Valid()
      ensures id in old(items) ==> db == Some(old(items[id]))
      ensures db.Some? ==> db.value.id == id && db.value in order && Ids() == Touched(old(Ids()), id, cap)
      ensures db.None? ==> order == old(order) && items == old(items)
      ensures forall h :: h in old(order) && h !in order ==> !h.open
      ensures forall h :: h in order ==> h in old(order) || (fresh(h) && db == Some(h))
    {
      if id in items {
        MoveToFront(items[id]);
        return Some(items[id]);
      }
      var ok := *;
      if !ok {
        return None;
      }
      var h := Open(id);
      return Some(h);
    }

    /** A new entry goes to the front, in the room of the last one when the list is full. */
    method Open(id: string) returns (h: Handle)
      requires Valid() && id !in items
      modifies this, order
      ensures Valid() && fresh(h) && h.id == id && h in order
      ensures Ids() == Touched(old(Ids()), id, cap)
      ensures forall x :: x in old(order) && x !in order ==> !x.open
      ensures forall x :: x in order ==> x in old(order) || x == h
    {
      hide Linked, IdsOf;
      NotListed(id);
      h := new Handle(id);
      OpenedIds(order, h, cap);
      if |order| >= cap && order != [] {
        assert order == order[..|order| - 1] + [order[|order| - 1]];
        Evict();
      }
      PushFront(h);
    }

    lemma NotListed(id: string)
      requires Linked() && id !in items
      ensures id !in Ids()
    {
      assert forall k :: 0 <= k < |order| ==> order[k] in order;
    }

    method Remove(id: string)
      requires Valid()
      modifies this, order
      ensures Valid()
      ensures Ids() == Without(old(Ids()), id)
      ensures id in old(items) ==> !old(items[id]).open
      ensures forall h :: h in order <==> h in old(order) && h.id != id
    {
      if id !in items {
        NotListed(id);
        WithoutAbsent(Ids(), id);
        return;
      }
      var h := items[id];
      var i := PositionFrom(order, h);
      Unlinked(order, i);
      items := items - {id};
      order := order[..i] + order[i + 1..];
      h.open := false;
    }

    /** Every cached database is closed and the cache is empty. */
    method CloseAll()
      requires Valid()
      modifies this, order
      ensures Valid() && order == []
      ensures forall h :: h in old(order) ==> !h.open
    {
      var entries := order;
      items := map[];
      order := [];
      var i := 0;
      while i < |entries|
        invariant 0 <= i <= |entries|
        invariant Valid() && order == []
        invariant forall k :: 0 <= k < i ==> !entries[k].open
        modifies entries
      {
        entries[i].open := false;
        i := i + 1;
      }
    }
  }

  // ------------------------------------------------------------ least recently used

  datatype Access = Got(id: string) | Removed(id: string) | ClosedAll

  /** What the list holds after a history of successful calls. */
  function Cached(h: seq<Access>, cap: int): seq<string> {
    if h == [] then []
    else
      var before := Cached(h[..|h| - 1], cap);
      match h[|h| - 1]
      case Got(id) => Touched(before, id, cap)
      case Removed(id) => Without(before, id)
      case ClosedAll => []
  }

  /** Every id ever got and not removed since, most recent first: no capacity here. */
  function Recent(h: seq<Access>): seq<string> {
    if h == [] then []
    else
      var before := Recent(h[..|h| - 1]);
      match h[|h| - 1]
      case Got(id) => [id] + Without(before, id)
      case Removed(id) => Without(before, id)
      case ClosedAll => []
  }

  lemma {:induction false} RecentDistinct(h: seq<Access>)
    ensures Distinct(Recent(h))
  {
    if h != [] {
      RecentDistinct(h[..|h| - 1]);
      var before := Recent(h[..|h| - 1]);
      match h[|h| - 1]
      case Got(id) =>
        WithoutMembers(before, id);
        DistinctCons(id, Without(before, id));
      case Removed(id) => WithoutMembers(before, id);
      case ClosedAll =>
    }
  }

  /** Dropping the tail of a list and taking an id out commute well enough for prefixes. */
  lemma WithoutPrefix(s: seq<string>, r: seq<string>, id: string)
    requires s <= r
    ensures Without(s, id) <= Without(r, id)
  {
    assert r == s + r[|s|..];
    WithoutAppend(s, r[|s|..], id);
  }

  lemma TouchedPrefix(s: seq<string>, r: seq<string>, id: string, cap: int)
    requires s <= r && Distinct(r)
    ensures Touched(s, id, cap) <= [id] + Without(r, id)
  {
    if id in s {
      WithoutPrefix(s, r, id);
    } else {
      var kept := if |s| >= cap && s != [] then s[..|s| - 1] else s;
      WithoutAbsent(kept, id);
      WithoutPrefix(kept, r, id);
    }
  }

  /**
   The cache always holds the ids got most recently, in that order: eviction never takes
   one that was used later than one it keeps.
   */
  lemma {:induction false} CacheIsMostRecent(h: seq<Access>, cap: int)
    ensures Cached(h, cap) <= Recent(h)
  {
    if h != [] {
      var before := h[..|h| - 1];
      CacheIsMostRecent(before, cap);
      RecentDistinct(before);
      match h[|h| - 1]
      case Got(id) => TouchedPrefix(Cached(before, cap), Recent(before), id, cap);
      case Removed(id) => WithoutPrefix(Cached(before, cap), Recent(before), id);
      case ClosedAll =>
    }
  }

  /** While nothing is removed, the cache holds exactly the `cap` ids got most recently. */
  lemma {:induction false} CacheIsFull(h: seq<Access>, cap: nat)
    requires cap >= 1
    requires forall a :: a in h ==> a.Got?
    ensures |Cached(h, cap)| == if |Recent(h)| <= cap then |Recent(h)| else cap
    ensures Cached(h, cap) == Recent(h)[..|Cached(h, cap)|]
  {
    CacheIsMostRecent(h, cap);
    if h != [] {
      var before := h[..|h| - 1];
      CacheIsFull(before, cap);
      RecentDistinct(before);
      var c, r := Cached(before, cap), Recent(before);
      var id := h[|h| - 1].id;
      assert h[|h| - 1] in h;
      assert Distinct(c);
      WithoutLength(c, id);
      WithoutLength(r, id);
      assert r == c + r[|c|..];
      assert id in c ==> id in r;
      assert |c| < cap ==> c == r;
    }
  }
}
