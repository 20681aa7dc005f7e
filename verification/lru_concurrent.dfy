/**
 The cache of open bucket databases under concurrency, step by step.  A step is what a
 thread does while it holds the cache mutex, or one action on an entry's lock.  Get
 gives the mutex up in the middle of an eviction, so other threads run between its
 removal of the victim and its insertion of the new entry.
 */
module LruConcurrent {
  import opened Wrappers
  import opened Collections

  /** How far a thread has got with the entry it is closing. */
  datatype Phase = Waiting | Locked | Closed

  /**
   What a thread is in the middle of: nothing, or closing a queue of entries after which
   Get inserts the entry it has opened.
   */
  datatype Thread = Idle | Draining(queue: seq<nat>, phase: Phase, pending: Option<nat>)

  /** Entries are numbered as they are created; `ids[e]` is the bucket of entry e. */
  datatype Cache = Cache(
    cap: int,
    ids: seq<string>,
    items: map<string, nat>,
    order: seq<nat>,           // most recently used first
    holds: multiset<nat>,      // read locks: callers between Get and release
    writers: set<nat>,         // write locks
    closes: multiset<nat>,     // how often each database has been closed
    threads: seq<Thread>)

  datatype Step =
    | GetHit(t: nat, id: string)
    | GetOpenFails(t: nat, id: string)
    | GetMiss(t: nat, id: string)
    | Insert(t: nat)
    | Release(e: nat)
    | Remove(t: nat, id: string)
    | CloseAll(t: nat, entries: seq<nat>)
    | Lock(t: nat)
    | Close(t: nat)
    | Unlock(t: nat)
    | Done(t: nat)

  ghost predicate IsIdle(c: Cache, t: nat) {
    t < |c.threads| && c.threads[t].Idle?
  }

  ghost predicate IsDraining(c: Cache, t: nat, phase: Phase) {
    t < |c.threads| && c.threads[t].Draining? && c.threads[t].queue != [] && c.threads[t].phase == phase
  }

  /** A list of the entries in the map, in whatever order the map is walked. */
  ghost predicate Lists(items: map<string, nat>, entries: seq<nat>) {
    && (forall i, j :: 0 <= i < j < |entries| ==> entries[i] != entries[j])
    && (forall e: nat :: e in entries <==> exists id :: id in items && items[id] == e)
  }

  ghost predicate Enabled(c: Cache, step: Step) {
    match step
    case GetHit(t, id) => IsIdle(c, t) && id in c.items && c.items[id] !in c.writers
    case GetOpenFails(t, id) => IsIdle(c, t) && id !in c.items
    case GetMiss(t, id) => IsIdle(c, t) && id !in c.items
    case Insert(t) =>
      t < |c.threads| && c.threads[t].Draining? && c.threads[t].queue == [] && c.threads[t].pending.Some?
    case Release(e) => c.holds[e] > 0
    case Remove(t, id) => IsIdle(c, t)
    case CloseAll(t, entries) => IsIdle(c, t) && Lists(c.items, entries)
    case Lock(t) =>
      IsDraining(c, t, Waiting) && c.holds[c.threads[t].queue[0]] == 0 && c.threads[t].queue[0] !in c.writers
    case Close(t) => IsDraining(c, t, Locked)
    case Unlock(t) => IsDraining(c, t, Closed)
    case Done(t) => t < |c.threads| && c.threads[t].Draining? && c.threads[t].queue == [] && c.threads[t].pending.None?
  }

  function IdOf(c: Cache, e: nat): string {
    if e < |c.ids| then c.ids[e] else ""
  }

  /** The new entry goes to the front of the list and into the map, read-locked. */
  function Pushed(c: Cache, e: nat): Cache {
    c.(order := [e] + c.order, items := c.items[IdOf(c, e) := e], holds := c.holds + multiset{e})
  }

  ghost function Next(c: Cache, step: Step): Cache
    requires Enabled(c, step)
  {
    match step
    case GetHit(t, id) =>
      var e := c.items[id];
      c.(order := [e] + Without(c.order, e), holds := c.holds + multiset{e})
    case GetOpenFails(t, id) => c
    case GetMiss(t, id) =>
      var e := |c.ids|;
      var c1 := c.(ids := c.ids + [id]);
      if |c.order| >= c.cap && c.order != [] then
        var victim := c.order[|c.order| - 1];
        c1.(items := c.items - {IdOf(c, victim)}, order := c.order[..|c.order| - 1],
            threads := c.threads[t := Draining([victim], Waiting, Some(e))])
      else Pushed(c1, e)
    case Insert(t) =>
      Pushed(c, c.threads[t].pending.value).(threads := c.threads[t := Idle])
    case Release(e) => c.(holds := c.holds - multiset{e})
    case Remove(t, id) =>
      if id !in c.items then c
      else c.(items := c.items - {id}, order := Without(c.order, c.items[id]),
              threads := c.threads[t := Draining([c.items[id]], Waiting, None)])
    case CloseAll(t, entries) =>
      c.(items := map[], order := [], threads := c.threads[t := Draining(entries, Waiting, None)])
    case Lock(t) =>
      c.(writers := c.writers + {c.threads[t].queue[0]}, threads := c.threads[t := c.threads[t].(phase := Locked)])
    case Close(t) =>
      var e := c.threads[t].queue[0];
      c.(closes := c.closes + multiset{e}, threads := c.threads[t := c.threads[t].(phase := Closed)])
    case Unlock(t) =>
      c.(writers := c.writers - {c.threads[t].queue[0]},
         threads := c.threads[t := c.threads[t].(queue := c.threads[t].queue[1..], phase := Waiting)])
    case Done(t) => c.(threads := c.threads[t := Idle])
  }

  // ------------------------------------------------------------ invariant

  ghost predicate Queued(c: Cache, t: nat, e: nat) {
    t < |c.threads| && c.threads[t].Draining? && e in c.threads[t].queue
  }

  /** Opened by a Get that has yet to insert it. */
  ghost predicate IsNew(c: Cache, t: nat, e: nat) {
    t < |c.threads| && c.threads[t].Draining? && c.threads[t].pending == Some(e)
  }

  /** The thread holds the entry's write lock. */
  ghost predicate HasLock(c: Cache, t: nat, e: nat) {
    t < |c.threads| && c.threads[t].Draining? && c.threads[t].queue != [] && c.threads[t].queue[0] == e
    && c.threads[t].phase != Waiting
  }

  /** Every entry mentioned exists. */
  ghost predicate Sane(c: Cache) {
    && (forall e: nat :: e in c.order ==> e < |c.ids|)
    && (forall t: nat, e: nat :: Queued(c, t, e) || IsNew(c, t, e) ==> e < |c.ids|)
    && (forall e: nat :: c.holds[e] > 0 ==> e < |c.ids|)
  }

  /** An entry is in the list, or being closed by one thread, or new in one thread. */
  ghost predicate Exclusive(c: Cache) {
    && Distinct(c.order)
    && (forall t :: 0 <= t < |c.threads| && c.threads[t].Draining? ==> Distinct(c.threads[t].queue))
    && (forall t: nat, e: nat :: Queued(c, t, e) || IsNew(c, t, e) ==> e !in c.order)
    && (forall t: nat, t': nat, e: nat :: Queued(c, t, e) && Queued(c, t', e) ==> t == t')
    && (forall t: nat, t': nat, e: nat :: IsNew(c, t, e) && IsNew(c, t', e) ==> t == t')
    && (forall t: nat, t': nat, e: nat :: Queued(c, t, e) ==> !IsNew(c, t', e))
  }

  ghost predicate Mapped(c: Cache) {
    forall id :: id in c.items ==> c.items[id] in c.order && c.items[id] < |c.ids| && c.ids[c.items[id]] == id
  }

  /** A database is closed at most once, under its write lock, when nobody reads it. */
  ghost predicate Locking(c: Cache) {
    && (forall e: nat :: e in c.writers ==> exists t: nat :: HasLock(c, t, e))
    && (forall t: nat, e: nat :: HasLock(c, t, e) ==> e in c.writers && c.holds[e] == 0)
    && (forall e: nat :: e in c.order ==> c.closes[e] == 0)
    && (forall t: nat, e: nat :: IsNew(c, t, e) ==> c.closes[e] == 0 && c.holds[e] == 0)
    && (forall t: nat, e: nat :: Queued(c, t, e) ==>
      c.closes[e] == if HasLock(c, t, e) && c.threads[t].phase == Closed then 1 else 0)
    && (forall e: nat :: c.holds[e] > 0 ==> c.closes[e] == 0)
    && (forall e: nat :: c.closes[e] <= 1)
    && (forall e: nat :: c.closes[e] > 0 ==> e < |c.ids|)
  }

  ghost predicate Inv(c: Cache) {
    Sane(c) && Exclusive(c) && Mapped(c) && Locking(c)
  }

  // ------------------------------------------------------------ list facts

  lemma WithoutFacts(s: seq<nat>, e: nat)
    ensures forall x: nat :: x in Without(s, e) <==> x in s && x != e
    ensures Distinct(s) ==> Distinct(Without(s, e))
    ensures |Without(s, e)| <= |s|
    ensures Distinct(s) && e in s ==> |Without(s, e)| == |s| - 1
  {
    WithoutMembers(s, e);
    if Distinct(s) { WithoutLength(s, e); }
  }

  lemma LastFacts(s: seq<nat>)
    requires s != [] && Distinct(s)
    ensures var v := s[|s| - 1]; var front := s[..|s| - 1];
      Distinct(front) && (forall x: nat :: x in front <==> x in s && x != v)
  {
    var front := s[..|s| - 1];
    assert s == front + [s[|s| - 1]];
  }

  // ------------------------------------------------------------ every step

  /** How the threads' claims on entries change when one thread moves on. */
  ghost predicate OnlyThread(c: Cache, c': Cache, t: nat) {
    && |c'.threads| == |c.threads|
    && forall t' :: 0 <= t' < |c.threads| && t' != t ==> c'.threads[t'] == c.threads[t']
  }

  lemma ClaimsElsewhere(c: Cache, c': Cache, t: nat)
    requires OnlyThread(c, c', t)
    ensures forall t': nat, e: nat :: t' != t ==> (Queued(c', t', e) <==> Queued(c, t', e))
    ensures forall t': nat, e: nat :: t' != t ==> (IsNew(c', t', e) <==> IsNew(c, t', e))
    ensures forall t': nat, e: nat :: t' != t ==> (HasLock(c', t', e) <==> HasLock(c, t', e))
  {
  }

  lemma HitKeepsInv(c: Cache, t: nat, id: string)
    requires Inv(c) && Enabled(c, GetHit(t, id))
    ensures Inv(Next(c, GetHit(t, id)))
  {
    hide Without;
    var c' := Next(c, GetHit(t, id));
    var e := c.items[id];
    WithoutFacts(c.order, e);
    DistinctCons(e, Without(c.order, e));
    assert forall x: nat :: x in c'.order <==> x in c.order;
    ClaimsElsewhere(c, c', |c.threads|);
    assert forall x: nat :: c'.holds[x] > 0 <==> c.holds[x] > 0 || x == e;
    assert Sane(c');
    assert Exclusive(c');
    assert Mapped(c');
    assert Locking(c');
  }

  /** Nothing holds, closes, locks or lists the entry yet. */
  ghost predicate Untouched(c: Cache, e: nat) {
    && e < |c.ids| && e !in c.order && c.holds[e] == 0 && c.closes[e] == 0 && e !in c.writers
    && forall t: nat :: !Queued(c, t, e) && !IsNew(c, t, e)
  }

  lemma PushKeepsInv(c: Cache, e: nat)
    requires Inv(c) && Untouched(c, e)
    ensures Inv(Pushed(c, e))
  {
    var c' := Pushed(c, e);
    DistinctCons(e, c.order);
    ClaimsElsewhere(c, c', |c.threads|);
    assert forall x: nat :: x in c'.order <==> x in c.order || x == e;
    assert forall x: nat :: c'.holds[x] > 0 <==> c.holds[x] > 0 || x == e;
    assert forall t: nat :: !HasLock(c, t, e);
    assert Sane(c');
    assert Exclusive(c');
    assert Mapped(c');
    assert Locking(c');
  }

  lemma OpenKeepsInv(c: Cache, id: string)
    requires Inv(c)
    ensures Inv(c.(ids := c.ids + [id])) && Untouched(c.(ids := c.ids + [id]), |c.ids|)
  {
    var c' := c.(ids := c.ids + [id]);
    ClaimsElsewhere(c, c', |c.threads|);
    assert |c.ids| !in c.writers by {
      assert forall t: nat :: HasLock(c, t, |c.ids|) ==> Queued(c, t, |c.ids|);
    }
  }

  lemma MissKeepsInv(c: Cache, t: nat, id: string)
    requires Inv(c) && Enabled(c, GetMiss(t, id)) && !(|c.order| >= c.cap && c.order != [])
    ensures Inv(Next(c, GetMiss(t, id)))
  {
    hide Inv, Untouched;
    OpenKeepsInv(c, id);
    PushKeepsInv(c.(ids := c.ids + [id]), |c.ids|);
  }

  /** An idle thread takes these entries off the list to close them, maybe with an entry to insert. */
  ghost predicate Starts(c: Cache, c': Cache, t: nat, queue: seq<nat>, pending: Option<nat>) {
    && t < |c.threads| && c.threads[t].Idle?
    && c'.threads == c.threads[t := Draining(queue, Waiting, pending)]
    && c'.holds == c.holds && c'.writers == c.writers && c'.closes == c.closes
    && c.ids <= c'.ids && (pending.Some? ==> pending.value == |c.ids| < |c'.ids|)
    && Distinct(queue) && (forall x: nat :: x in queue ==> x in c.order)
    && Distinct(c'.order) && (forall x: nat :: x in c'.order ==> x in c.order && x !in queue)
    && (forall id :: id in c'.items ==> id in c.items && c'.items[id] == c.items[id] && c'.items[id] in c'.order)
  }

  lemma StartsClaims(c: Cache, c': Cache, t: nat, queue: seq<nat>, pending: Option<nat>)
    requires Starts(c, c', t, queue, pending)
    ensures OnlyThread(c, c', t)
    ensures forall e: nat :: (Queued(c', t, e) <==> e in queue) && (IsNew(c', t, e) <==> pending == Some(e))
    ensures forall e: nat :: !HasLock(c', t, e) && !HasLock(c, t, e) && !Queued(c, t, e) && !IsNew(c, t, e)
    ensures forall t': nat, e: nat :: t' != t ==> (Queued(c', t', e) <==> Queued(c, t', e))
    ensures forall t': nat, e: nat :: t' != t ==> (IsNew(c', t', e) <==> IsNew(c, t', e))
    ensures forall t': nat, e: nat :: t' != t ==> (HasLock(c', t', e) <==> HasLock(c, t', e))
  {
    ClaimsElsewhere(c, c', t);
  }

  lemma StartsSane(c: Cache, c': Cache, t: nat, queue: seq<nat>, pending: Option<nat>)
    requires Sane(c) && Starts(c, c', t, queue, pending)
    ensures Sane(c')
  {
    StartsClaims(c, c', t, queue, pending);
  }

  lemma StartsExclusive(c: Cache, c': Cache, t: nat, queue: seq<nat>, pending: Option<nat>)
    requires Sane(c) && Exclusive(c) && Starts(c, c', t, queue, pending)
    ensures Exclusive(c')
  {
    StartsClaims(c, c', t, queue, pending);
  }

  lemma StartsMapped(c: Cache, c': Cache, t: nat, queue: seq<nat>, pending: Option<nat>)
    requires Mapped(c) && Starts(c, c', t, queue, pending)
    ensures Mapped(c')
  {
  }

  lemma StartsLocking(c: Cache, c': Cache, t: nat, queue: seq<nat>, pending: Option<nat>)
    requires Sane(c) && Locking(c) && Starts(c, c', t, queue, pending)
    ensures Locking(c')
  {
    StartsClaims(c, c', t, queue, pending);
    forall e: nat | e in c'.writers ensures exists t': nat :: HasLock(c', t', e) {
      var t': nat :| HasLock(c, t', e);
      assert HasLock(c', t', e);
    }
  }

  lemma StartsKeepsInv(c: Cache, c': Cache, t: nat, queue: seq<nat>, pending: Option<nat>)
    requires Inv(c) && Starts(c, c', t, queue, pending)
    ensures Inv(c')
  {
    hide Sane, Exclusive, Mapped, Locking, Starts;
    StartsSane(c, c', t, queue, pending);
    StartsExclusive(c, c', t, queue, pending);
    StartsMapped(c, c', t, queue, pending);
    StartsLocking(c, c', t, queue, pending);
  }

  lemma OrderSane(c: Cache)
    requires Sane(c)
    ensures forall e: nat :: e in c.order ==> e < |c.ids|
  {
  }

  lemma EvictKeepsInv(c: Cache, t: nat, id: string)
    requires Inv(c) && Enabled(c, GetMiss(t, id)) && |c.order| >= c.cap && c.order != []
    ensures Inv(Next(c, GetMiss(t, id)))
  {
    hide Locking, Sane;
    LastFacts(c.order);
    var victim := c.order[|c.order| - 1];
    assert victim in c.order;
    assert victim < |c.ids| by {
      OrderSane(c);
    }
    StartsKeepsInv(c, Next(c, GetMiss(t, id)), t, [victim], Some(|c.ids|));
  }

  lemma IdleKeepsInv(c: Cache, t: nat)
    requires Inv(c) && t < |c.threads| && c.threads[t].Draining? && c.threads[t].queue == []
    ensures Inv(c.(threads := c.threads[t := Idle]))
    ensures c.threads[t].pending.Some? ==> Untouched(c.(threads := c.threads[t := Idle]), c.threads[t].pending.value)
  {
    var c' := c.(threads := c.threads[t := Idle]);
    ClaimsElsewhere(c, c', t);
    assert forall x: nat :: !Queued(c', t, x) && !IsNew(c', t, x) && !HasLock(c', t, x);
    assert forall x: nat :: !Queued(c, t, x) && !HasLock(c, t, x);
    assert Inv(c');
    if c.threads[t].pending.Some? {
      var e := c.threads[t].pending.value;
      assert IsNew(c, t, e);
      assert forall t': nat :: HasLock(c, t', e) ==> Queued(c, t', e);
    }
  }

  lemma InsertKeepsInv(c: Cache, t: nat)
    requires Inv(c) && Enabled(c, Insert(t))
    ensures Inv(Next(c, Insert(t)))
  {
    hide Inv, Untouched;
    IdleKeepsInv(c, t);
    PushKeepsInv(c.(threads := c.threads[t := Idle]), c.threads[t].pending.value);
  }

  lemma ReleaseKeepsInv(c: Cache, e: nat)
    requires Inv(c) && Enabled(c, Release(e))
    ensures Inv(Next(c, Release(e)))
  {
    hide Inv;
    FewerHolds(c, Next(c, Release(e)));
  }

  lemma FewerHolds(c: Cache, c': Cache)
    requires Inv(c) && c' == c.(holds := c'.holds) && forall x: nat :: c'.holds[x] > 0 ==> c.holds[x] > 0
    ensures Inv(c')
  {
    assert forall t: nat, x: nat :: Queued(c', t, x) <==> Queued(c, t, x);
    assert forall t: nat, x: nat :: IsNew(c', t, x) <==> IsNew(c, t, x);
    assert forall t: nat, x: nat :: HasLock(c', t, x) <==> HasLock(c, t, x);
    assert forall x: nat :: c.holds[x] == 0 ==> c'.holds[x] == 0;
    assert Sane(c');
    assert Exclusive(c');
    assert Mapped(c');
    assert Locking(c');
  }

  lemma RemoveKeepsInv(c: Cache, t: nat, id: string)
    requires Inv(c) && Enabled(c, Remove(t, id))
    ensures Inv(Next(c, Remove(t, id)))
  {
    hide Without, Locking, Sane;
    if id in c.items {
      WithoutFacts(c.order, c.items[id]);
      StartsKeepsInv(c, Next(c, Remove(t, id)), t, [c.items[id]], None);
    }
  }

  lemma CloseAllKeepsInv(c: Cache, t: nat, entries: seq<nat>)
    requires Inv(c) && Enabled(c, CloseAll(t, entries))
    ensures Inv(Next(c, CloseAll(t, entries)))
  {
    hide Locking, Sane;
    forall x: nat | x in entries
      ensures x in c.order
    {
      var id :| id in c.items && c.items[id] == x;
    }
    StartsKeepsInv(c, Next(c, CloseAll(t, entries)), t, entries, None);
  }

  /** Moving a thread to its next phase leaves every claim on an entry where it was. */
  lemma PhaseKeepsClaims(c: Cache, c': Cache, t: nat)
    requires Sane(c) && Exclusive(c) && Mapped(c)
    requires t < |c.threads| && c.threads[t].Draining? && OnlyThread(c, c', t)
    requires exists phase :: c'.threads[t] == c.threads[t].(phase := phase)
    requires c'.ids == c.ids && c'.items == c.items && c'.order == c.order && c'.holds == c.holds
    ensures forall t: nat, x: nat :: Queued(c', t, x) <==> Queued(c, t, x)
    ensures forall t: nat, x: nat :: IsNew(c', t, x) <==> IsNew(c, t, x)
    ensures Sane(c') && Exclusive(c') && Mapped(c')
  {
    ClaimsElsewhere(c, c', t);
    assert forall x: nat :: Queued(c', t, x) <==> Queued(c, t, x);
    assert forall x: nat :: IsNew(c', t, x) <==> IsNew(c, t, x);
    assert forall t': nat, x: nat :: Queued(c', t', x) <==> Queued(c, t', x);
    assert forall t': nat, x: nat :: IsNew(c', t', x) <==> IsNew(c, t', x);
  }

  lemma LockKeepsInv(c: Cache, t: nat)
    requires Inv(c) && Enabled(c, Lock(t))
    ensures Inv(Next(c, Lock(t)))
  {
    var c' := Next(c, Lock(t));
    var e := c.threads[t].queue[0];
    assert Queued(c, t, e);
    PhaseKeepsClaims(c, c', t);
    ClaimsElsewhere(c, c', t);
    assert forall x: nat :: HasLock(c', t, x) <==> x == e;
    assert forall x: nat :: !HasLock(c, t, x);
    forall x: nat | x in c'.writers
      ensures exists t': nat :: HasLock(c', t', x)
    {
      if x == e {
        assert HasLock(c', t, x);
      } else {
        var t': nat :| HasLock(c, t', x);
        assert HasLock(c', t', x);
      }
    }
    assert Locking(c');
  }

  lemma CloseKeepsInv(c: Cache, t: nat)
    requires Inv(c) && Enabled(c, Close(t))
    ensures Inv(Next(c, Close(t)))
  {
    var c' := Next(c, Close(t));
    var e := c.threads[t].queue[0];
    assert Queued(c, t, e) && HasLock(c, t, e);
    PhaseKeepsClaims(c, c', t);
    ClaimsElsewhere(c, c', t);
    assert forall x: nat :: (HasLock(c', t, x) <==> x == e) && (HasLock(c, t, x) <==> x == e);
    assert Locking(c');
  }

  lemma UnlockKeepsLocking(c: Cache, c': Cache, t: nat, e: nat)
    requires Locking(c) && OnlyThread(c, c', t) && HasLock(c, t, e)
    requires forall t: nat, t': nat, x: nat :: Queued(c, t, x) && Queued(c, t', x) ==> t == t'
    requires c'.writers == c.writers - {e} && c'.order == c.order && c'.holds == c.holds
    requires c'.closes == c.closes && c'.ids == c.ids
    requires forall x: nat :: Queued(c', t, x) <==> Queued(c, t, x) && x != e
    requires forall x: nat :: IsNew(c', t, x) <==> IsNew(c, t, x)
    requires forall x: nat :: !HasLock(c', t, x) && (HasLock(c, t, x) <==> x == e)
    ensures Locking(c')
  {
    ClaimsElsewhere(c, c', t);
    assert Queued(c, t, e);
    forall x: nat | x in c'.writers
      ensures exists t': nat :: HasLock(c', t', x)
    {
      var t': nat :| HasLock(c, t', x);
      assert t' != t;
      assert HasLock(c', t', x);
    }
    forall t': nat, x: nat | HasLock(c', t', x)
      ensures x in c'.writers && c'.holds[x] == 0
    {
      assert t' != t && HasLock(c, t', x) && Queued(c, t', x);
    }
  }

  lemma UnlockKeepsInv(c: Cache, t: nat)
    requires Inv(c) && Enabled(c, Unlock(t))
    ensures Inv(Next(c, Unlock(t)))
  {
    var c' := Next(c, Unlock(t));
    var queue := c.threads[t].queue;
    var e := queue[0];
    ClaimsElsewhere(c, c', t);
    assert Queued(c, t, e) && HasLock(c, t, e);
    assert queue == [e] + queue[1..];
    assert forall x: nat :: Queued(c', t, x) <==> Queued(c, t, x) && x != e;
    assert forall x: nat :: IsNew(c', t, x) <==> IsNew(c, t, x);
    assert forall x: nat :: !HasLock(c', t, x) && (HasLock(c, t, x) <==> x == e);
    assert Sane(c');
    assert Exclusive(c') && Mapped(c') by {
      hide Locking;
    }
    assert Locking(c') by {
      UnlockKeepsLocking(c, c', t, e);
    }
  }

  lemma DoneKeepsInv(c: Cache, t: nat)
    requires Inv(c) && Enabled(c, Done(t))
    ensures Inv(Next(c, Done(t)))
  {
    hide Inv;
    IdleKeepsInv(c, t);
  }

  /** Whatever step is taken next, the invariant holds afterwards. */
  lemma StepKeepsInv(c: Cache, step: Step)
    requires Inv(c) && Enabled(c, step)
    ensures Inv(Next(c, step))
  {
    hide Inv, Next, Enabled;
    match step
    case GetHit(t, id) => HitKeepsInv(c, t, id);
    case GetOpenFails(t, id) => OpenFailsKeepsInv(c, t, id);
    case GetMiss(t, id) =>
      if |c.order| >= c.cap && c.order != [] {
        EvictKeepsInv(c, t, id);
      } else {
        MissKeepsInv(c, t, id);
      }
    case Insert(t) => InsertKeepsInv(c, t);
    case Release(e) => ReleaseKeepsInv(c, e);
    case Remove(t, id) => RemoveKeepsInv(c, t, id);
    case CloseAll(t, entries) => CloseAllKeepsInv(c, t, entries);
    case Lock(t) => LockKeepsInv(c, t);
    case Close(t) => CloseKeepsInv(c, t);
    case Unlock(t) => UnlockKeepsInv(c, t);
    case Done(t) => DoneKeepsInv(c, t);
  }

  lemma OpenFailsKeepsInv(c: Cache, t: nat, id: string)
    requires Inv(c) && Enabled(c, GetOpenFails(t, id))
    ensures Inv(Next(c, GetOpenFails(t, id)))
  {
  }

  // ------------------------------------------------------------ whole runs

  function Initial(cap: int, n: nat): Cache {
    Cache(cap, [], map[], [], multiset{}, {}, multiset{}, seq(n, _ => Idle))
  }

  ghost predicate Reaches(c: Cache, steps: seq<Step>, c': Cache)
    decreases |steps|
  {
    if steps == [] then c == c' else Enabled(c, steps[0]) && Reaches(Next(c, steps[0]), steps[1..], c')
  }

  lemma {:induction false} RunKeepsInv(c: Cache, steps: seq<Step>, c': Cache)
    requires Inv(c) && Reaches(c, steps, c')
    ensures Inv(c')
    decreases |steps|
  {
    hide Inv, Next, Enabled;
    if steps != [] {
      StepKeepsInv(c, steps[0]);
      RunKeepsInv(Next(c, steps[0]), steps[1..], c');
    }
  }

  lemma InitialInv(cap: int, n: nat)
    ensures Inv(Initial(cap, n))
  {
    var c := Initial(cap, n);
    assert forall t: nat, e: nat :: !Queued(c, t, e) && !IsNew(c, t, e) && !HasLock(c, t, e);
  }

  /**
   In every run of any number of threads: whoever is between Get and release holds a
   database that is open, and no database is closed twice.
   */
  lemma NoReaderHoldsClosed(cap: int, n: nat, steps: seq<Step>, c: Cache)
    requires Reaches(Initial(cap, n), steps, c)
    ensures forall e: nat :: c.holds[e] > 0 ==> c.closes[e] == 0
    ensures forall e: nat :: c.closes[e] <= 1
  {
    InitialInv(cap, n);
    RunKeepsInv(Initial(cap, n), steps, c);
  }

  /**
   What the map answers with is open, belongs to the bucket asked for, and neither has a
   writer nor a thread waiting to become one: Get never waits for it under the mutex.
   */
  lemma HitsAreOpen(cap: int, n: nat, steps: seq<Step>, c: Cache, id: string)
    requires Reaches(Initial(cap, n), steps, c)
    requires id in c.items
    ensures c.items[id] < |c.ids| && c.ids[c.items[id]] == id
    ensures c.closes[c.items[id]] == 0 && c.items[id] !in c.writers
    ensures forall t: nat :: !Queued(c, t, c.items[id])
  {
    InitialInv(cap, n);
    RunKeepsInv(Initial(cap, n), steps, c);
    var e := c.items[id];
    assert e in c.order;
    assert forall t: nat :: HasLock(c, t, e) ==> Queued(c, t, e);
  }

  // ------------------------------------------------------------ capacity

  function Owes(t: Thread): nat {
    if t.Draining? && t.pending.Some? then 1 else 0
  }

  /** How many Gets have opened an entry that they have yet to insert. */
  function Owed(threads: seq<Thread>): nat {
    if threads == [] then 0 else Owes(threads[0]) + Owed(threads[1..])
  }

  lemma {:induction false} OwedUpdate(threads: seq<Thread>, t: nat, x: Thread)
    requires t < |threads|
    ensures Owed(threads[t := x]) + Owes(threads[t]) == Owed(threads) + Owes(x)
  {
    if t == 0 {
      assert threads[t := x][1..] == threads[1..];
    } else {
      assert threads[t := x][1..] == threads[1..][t - 1 := x];
      OwedUpdate(threads[1..], t - 1, x);
    }
  }

  lemma {:induction false} OwedBound(threads: seq<Thread>, t: nat)
    requires t < |threads|
    ensures Owed(threads) <= |threads| - 1 + Owes(threads[t])
  {
    if |threads| > 1 {
      OwedBound(threads[1..], if t == 0 then 0 else t - 1);
    }
  }

  ghost predicate Bounded(c: Cache) {
    |c.order| + Owed(c.threads) <= c.cap + |c.threads| - 1
  }

  lemma StepKeepsBound(c: Cache, step: Step)
    requires Distinct(c.order) && (forall id :: id in c.items ==> c.items[id] in c.order)
    requires Enabled(c, step) && c.cap >= 1 && Bounded(c)
    ensures Bounded(Next(c, step)) && Next(c, step).cap == c.cap && |Next(c, step).threads| == |c.threads|
  {
    match step
    case GetHit(t, id) => WithoutFacts(c.order, c.items[id]);
    case GetOpenFails(t, id) =>
    case GetMiss(t, id) =>
      OwedBound(c.threads, t);
      if |c.order| >= c.cap && c.order != [] {
        OwedUpdate(c.threads, t, Draining([c.order[|c.order| - 1]], Waiting, Some(|c.ids|)));
      }
    case Insert(t) => OwedUpdate(c.threads, t, Idle);
    case Release(e) =>
    case Remove(t, id) =>
      if id in c.items {
        WithoutFacts(c.order, c.items[id]);
        OwedUpdate(c.threads, t, Draining([c.items[id]], Waiting, None));
      }
    case CloseAll(t, entries) => OwedUpdate(c.threads, t, Draining(entries, Waiting, None));
    case Lock(t) => OwedUpdate(c.threads, t, c.threads[t].(phase := Locked));
    case Close(t) => OwedUpdate(c.threads, t, c.threads[t].(phase := Closed));
    case Unlock(t) => OwedUpdate(c.threads, t, c.threads[t].(queue := c.threads[t].queue[1..], phase := Waiting));
    case Done(t) => OwedUpdate(c.threads, t, Idle);
  }

  lemma MapWithinList(c: Cache)
    requires Inv(c)
    ensures Distinct(c.order) && forall id :: id in c.items ==> c.items[id] in c.order
  {
  }

  lemma {:induction false} RunKeepsBound(c: Cache, steps: seq<Step>, c': Cache)
    requires Inv(c) && Reaches(c, steps, c') && c.cap >= 1 && Bounded(c)
    ensures Bounded(c') && c'.cap == c.cap && |c'.threads| == |c.threads|
    decreases |steps|
  {
    hide Inv, Next, Enabled, Bounded;
    if steps != [] {
      StepKeepsInv(c, steps[0]);
      MapWithinList(c);
      StepKeepsBound(c, steps[0]);
      RunKeepsBound(Next(c, steps[0]), steps[1..], c');
    }
  }

  lemma {:induction false} NothingOwed(threads: seq<Thread>)
    requires forall i :: 0 <= i < |threads| ==> threads[i] == Idle
    ensures Owed(threads) == 0
  {
    if threads != [] {
      NothingOwed(threads[1..]);
    }
  }

  /** With n threads the list never exceeds the capacity by more than n - 1. */
  lemma ListBound(cap: int, n: nat, steps: seq<Step>, c: Cache)
    requires cap >= 1 && n >= 1
    requires Reaches(Initial(cap, n), steps, c)
    ensures |c.order| <= cap + n - 1
  {
    InitialInv(cap, n);
    NothingOwed(Initial(cap, n).threads);
    RunKeepsBound(Initial(cap, n), steps, c);
  }

  lemma First(c: Cache, step: Step, steps: seq<Step>, c': Cache) returns (all: seq<Step>)
    requires Enabled(c, step) && Reaches(Next(c, step), steps, c')
    ensures all == [step] + steps && Reaches(c, all, c')
  {
    all := [step] + steps;
    assert all[1..] == steps;
  }

  /** One thread has given the mutex up while it evicts, another has put its entry in meanwhile. */
  function Racing(id: string): Cache {
    Cache(1, ["a", "b", id], map[id := 2], [2], multiset{2}, {}, multiset{}, [Draining([0], Waiting, Some(1)), Idle])
  }

  function Opened(): Cache {
    Cache(1, ["a"], map["a" := 0], [0], multiset{0}, {}, multiset{}, [Idle, Idle])
  }

  function Displacing(): Cache {
    Cache(1, ["a", "b"], map[], [], multiset{}, {}, multiset{}, [Draining([0], Waiting, Some(1)), Idle])
  }

  lemma RaceOpens()
    ensures Enabled(Initial(1, 2), GetMiss(0, "a")) && Next(Initial(1, 2), GetMiss(0, "a")) == Opened()
    ensures Enabled(Opened(), Release(0)) && Next(Opened(), Release(0)) == Opened().(holds := multiset{})
  {
    assert Initial(1, 2).threads == [Idle, Idle];
  }

  lemma RaceDisplaces()
    ensures var c := Opened().(holds := multiset{});
      Enabled(c, GetMiss(0, "b")) && Next(c, GetMiss(0, "b")) == Displacing()
  {
    var c := Opened().(holds := multiset{});
    assert c.items - {"a"} == map[] && c.order[..0] == [];
  }

  lemma RaceInserts(id: string)
    ensures Enabled(Displacing(), GetMiss(1, id)) && Next(Displacing(), GetMiss(1, id)) == Racing(id)
  {
  }

  lemma ReachesRacing(id: string) returns (steps: seq<Step>)
    ensures Reaches(Initial(1, 2), steps, Racing(id))
  {
    hide Next, Enabled, Opened, Displacing, Racing, Initial;
    RaceOpens();
    RaceDisplaces();
    RaceInserts(id);
    steps := First(Displacing(), GetMiss(1, id), [], Racing(id));
    steps := First(Opened().(holds := multiset{}), GetMiss(0, "b"), steps, Racing(id));
    steps := First(Opened(), Release(0), steps, Racing(id));
    steps := First(Initial(1, 2), GetMiss(0, "a"), steps, Racing(id));
  }

  /** The eviction as it is finished afterwards. */
  function Evicting(id: string, phase: Phase): Cache {
    Racing(id).(writers := {0}, closes := if phase == Closed then multiset{0} else multiset{},
                threads := [Draining([0], phase, Some(1)), Idle])
  }

  function Evicted(id: string): Cache {
    Racing(id).(closes := multiset{0}, threads := [Draining([], Waiting, Some(1)), Idle])
  }

  function Overfull(id: string): Cache {
    Cache(1, ["a", "b", id], map[id := 2]["b" := 1], [1, 2], multiset{1, 2}, {}, multiset{0}, [Idle, Idle])
  }

  lemma EvictionCloses(id: string)
    ensures Enabled(Racing(id), Lock(0)) && Next(Racing(id), Lock(0)) == Evicting(id, Locked)
    ensures Enabled(Evicting(id, Locked), Close(0)) && Next(Evicting(id, Locked), Close(0)) == Evicting(id, Closed)
  {
  }

  lemma EvictionInserts(id: string)
    ensures Enabled(Evicting(id, Closed), Unlock(0)) && Next(Evicting(id, Closed), Unlock(0)) == Evicted(id)
    ensures Enabled(Evicted(id), Insert(0)) && Next(Evicted(id), Insert(0)) == Overfull(id)
  {
    assert Evicting(id, Closed).threads[0].queue[1..] == [];
    assert Evicting(id, Closed).writers - {0} == {};
  }

  lemma ReachesOverfull(id: string) returns (steps: seq<Step>)
    ensures Reaches(Initial(1, 2), steps, Overfull(id))
  {
    hide Next, Enabled, Racing, Evicting, Evicted, Overfull, Initial;
    EvictionCloses(id);
    EvictionInserts(id);
    var rest := First(Evicted(id), Insert(0), [], Overfull(id));
    rest := First(Evicting(id, Closed), Unlock(0), rest, Overfull(id));
    rest := First(Evicting(id, Locked), Close(0), rest, Overfull(id));
    rest := First(Racing(id), Lock(0), rest, Overfull(id));
    steps := ReachesRacing(id);
    ReachesThrough(Initial(1, 2), steps, Racing(id), rest, Overfull(id));
    steps := steps + rest;
  }

  lemma {:induction false} ReachesThrough(c: Cache, s: seq<Step>, c1: Cache, t: seq<Step>, c2: Cache)
    requires Reaches(c, s, c1) && Reaches(c1, t, c2)
    ensures Reaches(c, s + t, c2)
    decreases |s|
  {
    hide Next, Enabled;
    if s == [] {
      assert s + t == t;
    } else {
      ReachesThrough(Next(c, s[0]), s[1..], c1, t, c2);
      assert (s + t)[1..] == s[1..] + t;
    }
  }

  /** The bound is reached: two threads can bring a cache of one entry to two. */
  lemma BoundIsReached()
    ensures exists steps, c :: Reaches(Initial(1, 2), steps, c) && |c.order| == 1 + 2 - 1
  {
    hide Reaches;
    var steps := ReachesOverfull("c");
    assert |Overfull("c").order| == 2;
  }
}
