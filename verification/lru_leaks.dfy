/**
 What racing Gets do to the cache beyond overfilling it.  A Get that finishes an eviction
 inserts its entry without looking again whether another Get has inserted one for the same
 bucket meanwhile; from then on the list holds a database that the map does not name.
 */
module LruLeaks {
  import opened Wrappers
  import opened Collections
  import opened LruConcurrent

  /** The map names every listed entry. */
  ghost predicate Agree(c: Cache) {
    forall e: nat :: e in c.order ==> IdOf(c, e) in c.items && c.items[IdOf(c, e)] == e
  }

  /** A listed entry that the map does not name. */
  ghost predicate Orphan(c: Cache, e: nat) {
    e in c.order && !(IdOf(c, e) in c.items && c.items[IdOf(c, e)] == e)
  }

  lemma AgreeIffNoOrphan(c: Cache)
    ensures Agree(c) <==> forall e: nat :: !Orphan(c, e)
  {
    if forall e: nat :: !Orphan(c, e) {
      forall e: nat | e in c.order ensures IdOf(c, e) in c.items && c.items[IdOf(c, e)] == e {
        assert !Orphan(c, e);
      }
    }
  }

  /** An insertion for a bucket that has an entry already. */
  ghost predicate Collides(c: Cache, step: Step)
    requires Enabled(c, step)
  {
    step.Insert? && IdOf(c, c.threads[step.t].pending.value) in c.items
  }

  /** Neither listed, nor new, nor being closed, and still open: nothing will ever close it. */
  ghost predicate Lost(c: Cache, e: nat) {
    e < |c.ids| && c.closes[e] == 0 && e !in c.order && forall t: nat :: !Queued(c, t, e) && !IsNew(c, t, e)
  }

  // ------------------------------------------------------------ when list and map agree

  lemma OthersDiffer(c: Cache, e: nat, x: nat)
    requires Agree(c) && e in c.order && x in c.order && e != x
    ensures IdOf(c, e) != IdOf(c, x)
  {
  }

  lemma AgreesAlike(c: Cache, c': Cache)
    requires Sane(c) && c'.items == c.items && c.ids <= c'.ids && forall e: nat :: e in c'.order <==> e in c.order
    ensures Agree(c') <==> Agree(c)
  {
  }

  lemma MissAgrees(c: Cache, t: nat, id: string)
    requires Inv(c) && Agree(c) && Enabled(c, GetMiss(t, id))
    ensures Agree(Next(c, GetMiss(t, id)))
  {
    hide Locking, Exclusive;
    var c' := Next(c, GetMiss(t, id));
    if |c.order| >= c.cap && c.order != [] {
      MapWithinList(c);
      LastFacts(c.order);
      var victim := c.order[|c.order| - 1];
      forall e: nat | e in c'.order ensures IdOf(c', e) in c'.items && c'.items[IdOf(c', e)] == e {
        assert e in c.order && e != victim;
        OthersDiffer(c, e, victim);
      }
    } else {
      forall e: nat | e in c'.order ensures IdOf(c', e) in c'.items && c'.items[IdOf(c', e)] == e {
        assert e in c.order || e == |c.ids|;
      }
    }
  }

  lemma InsertAgreesIff(c: Cache, t: nat)
    requires Inv(c) && Agree(c) && Enabled(c, Insert(t))
    ensures Agree(Next(c, Insert(t))) <==> !Collides(c, Insert(t))
  {
    hide Locking;
    var e := c.threads[t].pending.value;
    var c' := Next(c, Insert(t));
    assert IsNew(c, t, e);
    assert forall x: nat :: x in c'.order <==> x in c.order || x == e;
    assert forall x: nat :: IdOf(c', x) == IdOf(c, x);
    if IdOf(c, e) in c.items {
      var x := c.items[IdOf(c, e)];
      assert x in c.order && x != e && IdOf(c, x) == IdOf(c, e);
    }
  }

  lemma RemoveAgrees(c: Cache, t: nat, id: string)
    requires Inv(c) && Agree(c) && Enabled(c, Remove(t, id))
    ensures Agree(Next(c, Remove(t, id)))
  {
    hide Locking, Sane;
    var c' := Next(c, Remove(t, id));
    if id in c.items {
      var x := c.items[id];
      WithoutFacts(c.order, x);
      forall e: nat | e in c'.order ensures IdOf(c', e) in c'.items && c'.items[IdOf(c', e)] == e {
        OthersDiffer(c, e, x);
      }
    }
  }

  /** Exactly a colliding insertion makes list and map part. */
  lemma StepAgreesIff(c: Cache, step: Step)
    requires Inv(c) && Agree(c) && Enabled(c, step)
    ensures Agree(Next(c, step)) <==> !Collides(c, step)
  {
    hide Exclusive, Mapped, Locking, Agree, Without;
    match step
    case GetMiss(t, id) => MissAgrees(c, t, id);
    case Insert(t) => InsertAgreesIff(c, t);
    case Remove(t, id) => RemoveAgrees(c, t, id);
    case CloseAll(t, entries) => EmptyAgrees(Next(c, step));
    case GetHit(t, id) =>
      HitKeepsEntries(c, t, id);
      AgreesAlike(c, Next(c, step));
    case _ => AgreesAlike(c, Next(c, step));
  }

  lemma EmptyAgrees(c: Cache)
    requires c.order == []
    ensures Agree(c)
  {
  }

  lemma HitKeepsEntries(c: Cache, t: nat, id: string)
    requires Inv(c) && Enabled(c, GetHit(t, id))
    ensures forall e: nat :: e in Next(c, GetHit(t, id)).order <==> e in c.order
  {
    hide Exclusive, Locking, Sane;
    WithoutFacts(c.order, c.items[id]);
  }

  ghost predicate NeverCollides(c: Cache, steps: seq<Step>)
    decreases |steps|
  {
    steps == [] || (Enabled(c, steps[0]) && !Collides(c, steps[0]) && NeverCollides(Next(c, steps[0]), steps[1..]))
  }

  ghost predicate AlwaysAgrees(c: Cache, steps: seq<Step>)
    decreases |steps|
  {
    Agree(c) && (steps == [] || (Enabled(c, steps[0]) && AlwaysAgrees(Next(c, steps[0]), steps[1..])))
  }

  /** Over a run, list and map agree at every moment exactly when no insertion collides. */
  lemma {:induction false} AgreesIff(c: Cache, steps: seq<Step>, c': Cache)
    requires Inv(c) && Agree(c) && Reaches(c, steps, c')
    ensures AlwaysAgrees(c, steps) <==> NeverCollides(c, steps)
    ensures NeverCollides(c, steps) ==> Agree(c')
    decreases |steps|
  {
    hide Inv, Agree, Next, Enabled, Collides;
    if steps != [] {
      StepAgreesIff(c, steps[0]);
      StepKeepsInv(c, steps[0]);
      var c1 := Next(c, steps[0]);
      if Agree(c1) {
        AgreesIff(c1, steps[1..], c');
      } else {
        NotAlways(c1, steps[1..]);
      }
    }
  }

  lemma NotAlways(c: Cache, steps: seq<Step>)
    requires !Agree(c)
    ensures !AlwaysAgrees(c, steps)
  {
  }

  // ------------------------------------------------------------ what is never closed

  /** The entry is as far as it was: no thread has taken it up or finished with it. */
  lemma LostAlike(c: Cache, c': Cache, t: nat, e: nat)
    requires OnlyThread(c, c', t) && t < |c.threads|
    requires (e < |c'.ids| <==> e < |c.ids|) && c'.closes[e] == c.closes[e] && (e in c'.order <==> e in c.order)
    requires Queued(c', t, e) || IsNew(c', t, e) <==> Queued(c, t, e) || IsNew(c, t, e)
    ensures Lost(c', e) <==> Lost(c, e)
  {
    ClaimsElsewhere(c, c', t);
  }

  lemma MissLoses(c: Cache, t: nat, id: string, e: nat)
    requires Inv(c) && Enabled(c, GetMiss(t, id))
    ensures Lost(Next(c, GetMiss(t, id)), e) <==> Lost(c, e)
  {
    hide Locking;
    var c' := Next(c, GetMiss(t, id));
    if |c.order| >= c.cap && c.order != [] {
      LastFacts(c.order);
      ClaimsElsewhere(c, c', t);
      assert c'.threads[t] == Draining([c.order[|c.order| - 1]], Waiting, Some(|c.ids|));
      if Lost(c', e) {
        assert !IsNew(c', t, e) && !Queued(c', t, e);
        assert forall t': nat :: !Queued(c, t', e) && !IsNew(c, t', e);
      }
    } else {
      ClaimsElsewhere(c, c', |c.threads|);
    }
  }

  lemma InsertLoses(c: Cache, t: nat, e: nat)
    requires Inv(c) && Enabled(c, Insert(t))
    ensures Lost(Next(c, Insert(t)), e) <==> Lost(c, e)
  {
    hide Locking, Mapped;
    var c' := Next(c, Insert(t));
    ClaimsElsewhere(c, c', t);
    assert IsNew(c, t, c.threads[t].pending.value);
    if Lost(c', e) {
      assert forall t': nat :: t' != t ==> !Queued(c, t', e) && !IsNew(c, t', e);
    }
  }

  lemma RemoveLoses(c: Cache, t: nat, id: string, e: nat)
    requires Inv(c) && Enabled(c, Remove(t, id))
    ensures Lost(Next(c, Remove(t, id)), e) <==> Lost(c, e)
  {
    hide Locking;
    var c' := Next(c, Remove(t, id));
    if id in c.items {
      WithoutFacts(c.order, c.items[id]);
      ClaimsElsewhere(c, c', t);
      if Lost(c', e) {
        assert !Queued(c', t, e);
        assert forall t': nat :: !Queued(c, t', e) && !IsNew(c, t', e);
      }
    }
  }

  lemma CloseAllLosesIff(c: Cache, t: nat, entries: seq<nat>, e: nat)
    requires Inv(c) && Enabled(c, CloseAll(t, entries))
    ensures Lost(Next(c, CloseAll(t, entries)), e) <==> Lost(c, e) || Orphan(c, e)
  {
    var c' := Next(c, CloseAll(t, entries));
    ClaimsElsewhere(c, c', t);
    assert Queued(c', t, e) <==> e in entries;
    NamedIff(c, entries, e);
    if Lost(c', e) {
      assert !Queued(c', t, e);
      assert forall t': nat :: !Queued(c, t', e) && !IsNew(c, t', e);
    }
    if e in c.order {
      assert e < |c.ids| && c.closes[e] == 0;
      assert forall t': nat :: !Queued(c, t', e) && !IsNew(c, t', e);
    }
  }

  lemma NamedIff(c: Cache, entries: seq<nat>, e: nat)
    requires Mapped(c) && Lists(c.items, entries)
    ensures e in entries <==> e in c.order && !Orphan(c, e)
  {
    if e in entries {
      var id :| id in c.items && c.items[id] == e;
    }
  }

  /** Closing, step by step, loses nothing: what leaves the queue has been closed. */
  lemma ClosingLoses(c: Cache, step: Step, e: nat)
    requires Inv(c) && Enabled(c, step) && (step.Lock? || step.Close? || step.Unlock? || step.Done?)
    ensures Lost(Next(c, step), e) <==> Lost(c, e)
  {
    hide Mapped, Sane;
    var c' := Next(c, step);
    ClaimsElsewhere(c, c', step.t);
    var t := step.t;
    if step.Done? {
      LostAlike(c, c', t, e);
    } else {
      var x := c.threads[t].queue[0];
      assert Queued(c, t, x) && c.threads[t].queue == [x] + c.threads[t].queue[1..];
      if e != x {
        LostAlike(c, c', t, e);
      } else if step.Unlock? {
        assert HasLock(c, t, x);
        assert c.closes[x] == 1;
      } else {
        assert Queued(c', t, x);
      }
    }
  }

  /**
   Only CloseAll loses entries, and exactly those that the map does not name when it empties
   the list; what is lost stays lost.
   */
  lemma LostIff(c: Cache, step: Step, e: nat)
    requires Inv(c) && Enabled(c, step)
    ensures Lost(Next(c, step), e) <==> Lost(c, e) || (step.CloseAll? && Orphan(c, e))
  {
    hide Inv, Orphan, Without;
    match step
    case GetHit(t, id) =>
      HitKeepsEntries(c, t, id);
      SameClaims(c, Next(c, step), e);
    case GetMiss(t, id) => MissLoses(c, t, id, e);
    case Insert(t) => InsertLoses(c, t, e);
    case Remove(t, id) => RemoveLoses(c, t, id, e);
    case CloseAll(t, entries) => CloseAllLosesIff(c, t, entries, e);
    case GetOpenFails(t, id) =>
    case Release(x) => SameClaims(c, Next(c, step), e);
    case _ => ClosingLoses(c, step, e);
  }

  lemma SameClaims(c: Cache, c': Cache, e: nat)
    requires c'.threads == c.threads && c'.ids == c.ids && c'.closes == c.closes && (e in c'.order <==> e in c.order)
    ensures Lost(c', e) <==> Lost(c, e)
  {
    ClaimsElsewhere(c, c', |c.threads|);
  }

  /** A run in which no insertion collides loses nothing. */
  lemma {:induction false} NothingLost(c: Cache, steps: seq<Step>, c': Cache)
    requires Inv(c) && Agree(c) && Reaches(c, steps, c') && NeverCollides(c, steps)
    requires forall e: nat :: !Lost(c, e)
    ensures Inv(c') && Agree(c') && forall e: nat :: !Lost(c', e)
    decreases |steps|
  {
    hide Inv, Next, Enabled, Collides, Lost, Orphan, Agree;
    if steps != [] {
      AgreeIffNoOrphan(c);
      var c1 := Next(c, steps[0]);
      StepKeepsInv(c, steps[0]);
      StepAgreesIff(c, steps[0]);
      forall e: nat ensures !Lost(c1, e) {
        LostIff(c, steps[0], e);
      }
      NothingLost(c1, steps[1..], c');
    }
  }

  /** When all threads are idle, the open databases are those listed and those lost. */
  lemma IdleOpenIff(c: Cache, e: nat)
    requires Inv(c) && (forall t :: 0 <= t < |c.threads| ==> c.threads[t].Idle?) && e < |c.ids|
    ensures c.closes[e] == 0 <==> e in c.order || Lost(c, e)
  {
    assert forall t: nat :: !Queued(c, t, e) && !IsNew(c, t, e);
  }

  /**
   At rest after a run without collisions, the open databases are exactly those the map
   names, so Remove and CloseAll reach all of them.
   */
  lemma AtRest(cap: int, n: nat, steps: seq<Step>, c: Cache, e: nat)
    requires Reaches(Initial(cap, n), steps, c) && NeverCollides(Initial(cap, n), steps)
    requires (forall t :: 0 <= t < |c.threads| ==> c.threads[t].Idle?) && e < |c.ids|
    ensures c.closes[e] == 0 <==> IdOf(c, e) in c.items && c.items[IdOf(c, e)] == e
  {
    InitialInv(cap, n);
    assert Agree(Initial(cap, n));
    NothingLost(Initial(cap, n), steps, c);
    IdleOpenIff(c, e);
    MapWithinList(c);
    AgreeIffNoOrphan(c);
    assert !Orphan(c, e) && !Lost(c, e);
  }

  // ------------------------------------------------------------ two Gets of one bucket

  /** Two threads miss one bucket: afterwards one of its two open entries is not in the map. */
  lemma TwoGetsCollide()
    ensures exists steps, c, e: nat :: Reaches(Initial(1, 2), steps, c) && Orphan(c, e)
  {
    hide Reaches;
    var steps := ReachesOverfull("b");
    assert Orphan(Overfull("b"), 2);
  }

  /** Closing everything then leaves it open for good. */
  lemma CloseAllLeavesOpen()
    ensures exists steps, c, e: nat :: Reaches(Initial(1, 2), steps, c) && Lost(c, e)
  {
    var c := Overfull("b");
    var steps := ReachesOverfull("b");
    var last := CloseAll(0, [1]);
    assert Enabled(c, last) by { OneNamed(); }
    InitialInv(1, 2);
    RunKeepsInv(Initial(1, 2), steps, c);
    LostIff(c, last, 2);
    assert Orphan(c, 2);
    var rest := First(c, last, [], Next(c, last));
    ReachesThrough(Initial(1, 2), steps, c, rest, Next(c, last));
  }

  lemma OneNamed()
    ensures Lists(Overfull("b").items, [1])
  {
    var items := Overfull("b").items;
    assert items["b"] == 1 && forall id :: id in items ==> id == "b";
  }
}
