/**
 Many daemons sharing one WebDAV location: exactly-once accounting over any
 interleaving of appends, flushes and syncs, stale snapshots included.
 */
module StatsCluster {
  import opened Stats

  /** The daemons, by name. */
  datatype Setup = Setup(names: seq<string>)
  {
    ghost predicate Valid() {
      forall d, e :: 0 <= d < e < |names| ==> names[d] != names[e]
    }

    function Source(e: nat): string
      requires e < |names|
    {
      "stats-" + names[e] + ".db"
    }

    /** How daemon d's table marks the rows of daemon e. */
    function Key(d: nat, e: nat): string
      requires e < |names|
    {
      if e == d then "" else Source(e)
    }
  }

  /** Every daemon's table, and every snapshot it has uploaded so far, oldest first. */
  datatype Cluster = Cluster(logs: seq<Log>, published: seq<seq<seq<Row>>>)

  datatype Step =
    | Append(d: nat, loc: string, user: string, bucket: string, bytes: int, count: int)
    | Flush(d: nat)
    // with the location ids as this sync translates them
    | Sync(d: nat, e: nat, snapshot: nat, locs: map<string, string>)

  ghost predicate Enabled(s: Setup, cl: Cluster, step: Step) {
    match step
    case Append(d, _, _, _, _, _) => d < |s.names|
    case Flush(d) => d < |s.names|
    case Sync(d, e, i, _) => d < |s.names| && e < |s.names| && d != e && e < |cl.published| && i < |cl.published[e]|
  }

  function Apply(s: Setup, cl: Cluster, step: Step): Cluster
    requires Enabled(s, cl, step) && |cl.logs| == |cl.published| == |s.names|
  {
    match step
    case Append(d, loc, user, bucket, bytes, count) =>
      cl.(logs := cl.logs[d := cl.logs[d].Add(loc, user, bucket, bytes, count)])
    case Flush(d) =>
      cl.(published := cl.published[d := cl.published[d] + [From(cl.logs[d].rows, "")]])
    case Sync(d, e, i, locs) =>
      cl.(logs := cl.logs[d := cl.logs[d].Merge(s.Source(e), locs, cl.published[e][i])])
  }

  /** What daemon d has written itself, and what it holds of daemon e. */
  function Own(cl: Cluster, d: nat): seq<Row>
    requires d < |cl.logs|
  {
    From(cl.logs[d].rows, "")
  }

  function Seen(s: Setup, cl: Cluster, d: nat, e: nat): seq<Row>
    requires d < |cl.logs| && e < |s.names|
  {
    From(cl.logs[d].rows, s.Source(e))
  }

  /** The same delta, under a location id that an import may have translated. */
  predicate IsCopy(r: Row, x: Row) {
    x.sourceRow == r.id && x.user == r.user && x.bucket == r.bucket && x.bytes == r.bytes && x.count == r.count
  }

  /** `seen` is a copy of the first rows of `own`. */
  predicate IsPrefixCopy(own: seq<Row>, seen: seq<Row>) {
    |seen| <= |own| && forall i :: 0 <= i < |seen| ==> IsCopy(own[i], seen[i])
  }

  /** `more` continues `seen` with copies whose location ids this map has translated. */
  predicate Continues(locs: map<string, string>, own: seq<Row>, seen: seq<Row>, more: seq<Row>) {
    seen <= more && |more| <= |own| && forall i :: |seen| <= i < |more| ==> more[i].loc == Mapped(locs, own[i].loc)
  }

  ghost predicate KnownSources(s: Setup, rows: seq<Row>, d: nat) {
    forall r :: r in rows ==> exists e :: 0 <= e < |s.names| && r.source == s.Key(d, e)
  }

  ghost predicate Inv(s: Setup, cl: Cluster) {
    && s.Valid() && |cl.logs| == |cl.published| == |s.names|
    && (forall d :: 0 <= d < |s.names| ==> cl.logs[d].Valid() && KnownSources(s, cl.logs[d].rows, d))
    && (forall d, e :: 0 <= d < |s.names| && 0 <= e < |s.names| && d != e ==>
      IsPrefixCopy(Own(cl, e), Seen(s, cl, d, e)))
    && (forall e, i :: 0 <= e < |s.names| && 0 <= i < |cl.published[e]| ==> cl.published[e][i] <= Own(cl, e))
  }

  // ------------------------------------------------------------ one merge

  lemma SourceNonEmpty(s: Setup, e: nat)
    requires e < |s.names|
    ensures s.Source(e) != ""
  {
  }

  lemma KeysDistinct(s: Setup, d: nat, e: nat, e': nat)
    requires s.Valid() && e < |s.names| && e' < |s.names| && s.Key(d, e) == s.Key(d, e')
    ensures e == e'
  {
    if e != d && e' != d {
      var x, y := s.Source(e), s.Source(e');
      assert x[6..|x| - 3] == s.names[e] && y[6..|y| - 3] == s.names[e'];
    }
  }

  lemma FromSnoc(rows: seq<Row>, r: Row, source: string)
    ensures From(rows + [r], source) == From(rows, source) + if r.source == source then [r] else []
  {
    assert (rows + [r])[..|rows|] == rows;
  }

  /** Whether the unique index holds a row of this source is decided by its prefix copy. */
  lemma HasIffSeen(log: Log, source: string, own: seq<Row>, t: nat)
    requires Ascending(own) && IsPrefixCopy(own, From(log.rows, source)) && t < |own|
    ensures log.Has(source, own[t].id) <==> t < |From(log.rows, source)|
  {
    var seen := From(log.rows, source);
    FromWithin(log.rows, source);
    if t < |seen| {
      assert seen[t] in log.rows;
    }
    if log.Has(source, own[t].id) {
      var i :| 0 <= i < |log.rows| && log.rows[i].source == source && log.rows[i].sourceRow == own[t].id;
      FromHolds(log.rows, log.rows[i]);
      var j :| 0 <= j < |seen| && seen[j] == log.rows[i];
      assert own[j].id == own[t].id;
    }
  }

  /** Merging a snapshot, however stale, only ever extends the copied prefix. */
  lemma {:induction false} MergeExtends(
    log: Log, source: string, locs: map<string, string>, own: seq<Row>, snapshot: seq<Row>)
    requires log.Valid() && source != "" && Ascending(own) && snapshot <= own
    requires IsPrefixCopy(own, From(log.rows, source))
    ensures var log' := log.Merge(source, locs, snapshot);
      var seen, seen' := From(log.rows, source), From(log'.rows, source);
      && log'.Valid() && IsPrefixCopy(own, seen') && Continues(locs, own, seen, seen')
      && |seen'| == (if |snapshot| <= |seen| then |seen| else |snapshot|)
      && (forall other :: other != source ==> From(log'.rows, other) == From(log.rows, other))
      && (forall r :: r in log'.rows ==> r in log.rows || r.source == source)
  {
    hide IsPrefixCopy, Continues, Log.Valid, Log.Import;
    var seen := From(log.rows, source);
    ContinuesStart(locs, own, seen);
    if snapshot != [] {
      var n := |snapshot| - 1;
      MergeExtends(log, source, locs, own, snapshot[..n]);
      var before := log.Merge(source, locs, snapshot[..n]);
      assert snapshot[n] == own[n];
      HasIffSeen(before, source, own, n);
      ImportStep(before, source, locs, own, n);
      var after := before.Import(source, locs, own[n]);
      ContinuesThrough(locs, own, seen, From(before.rows, source), From(after.rows, source));
    }
  }

  lemma ContinuesStart(locs: map<string, string>, own: seq<Row>, seen: seq<Row>)
    requires IsPrefixCopy(own, seen)
    ensures Continues(locs, own, seen, seen)
  {
  }

  lemma ContinuesThrough(locs: map<string, string>, own: seq<Row>, seen: seq<Row>, more: seq<Row>, most: seq<Row>)
    requires Continues(locs, own, seen, more) && Continues(locs, own, more, most)
    ensures Continues(locs, own, seen, most)
  {
  }

  lemma CopySnoc(locs: map<string, string>, own: seq<Row>, seen: seq<Row>, x: Row)
    requires IsPrefixCopy(own, seen) && |seen| < |own|
    requires IsCopy(own[|seen|], x) && x.loc == Mapped(locs, own[|seen|].loc)
    ensures IsPrefixCopy(own, seen + [x]) && Continues(locs, own, seen, seen + [x])
  {
  }

  lemma ImportStep(log: Log, source: string, locs: map<string, string>, own: seq<Row>, n: nat)
    requires log.Valid() && source != "" && n < |own|
    requires IsPrefixCopy(own, From(log.rows, source))
    requires log.Has(source, own[n].id) <==> n < |From(log.rows, source)|
    requires n <= |From(log.rows, source)|
    ensures var log' := log.Import(source, locs, own[n]);
      var seen, seen' := From(log.rows, source), From(log'.rows, source);
      && log'.Valid() && IsPrefixCopy(own, seen') && Continues(locs, own, seen, seen')
      && |seen'| == (if n < |seen| then |seen| else n + 1)
      && (forall other :: other != source ==> From(log'.rows, other) == From(log.rows, other))
      && (forall r :: r in log'.rows ==> r in log.rows || r.source == source)
  {
    hide IsPrefixCopy, Continues, Log.Has, Log.Valid, From;
    ContinuesStart(locs, own, From(log.rows, source));
    if !log.Has(source, own[n].id) {
      var r := own[n];
      var x := Row(log.next, Mapped(locs, r.loc), r.user, r.bucket, r.bytes, r.count, source, r.id);
      RowAdded(log, x);
      CopySnoc(locs, own, From(log.rows, source), x);
    }
  }

  lemma RowAdded(log: Log, x: Row)
    requires log.Valid() && x.id == log.next
    ensures Log(log.rows + [x], log.next + 1).Valid()
    ensures forall r :: r in log.rows + [x] ==> r in log.rows || r == x
    ensures From(log.rows + [x], x.source) == From(log.rows, x.source) + [x]
    ensures forall other :: other != x.source ==> From(log.rows + [x], other) == From(log.rows, other)
  {
    forall other
      ensures From(log.rows + [x], other) == From(log.rows, other) + if x.source == other then [x] else []
    {
      FromSnoc(log.rows, x, other);
    }
  }

  // ------------------------------------------------------------ every step

  lemma AppendEffect(s: Setup, cl: Cluster, step: Step)
    requires Inv(s, cl) && step.Append? && Enabled(s, cl, step)
    ensures var cl' := Apply(s, cl, step);
      && cl'.logs[step.d].Valid() && KnownSources(s, cl'.logs[step.d].rows, step.d)
      && (forall e :: 0 <= e < |s.names| ==> Own(cl, e) <= Own(cl', e))
      && (forall d, e :: 0 <= d < |s.names| && 0 <= e < |s.names| && d != e ==>
        Seen(s, cl', d, e) == Seen(s, cl, d, e))
  {
    hide IsPrefixCopy;
    var d := step.d;
    var log := cl.logs[d];
    var r := Row(log.next, step.loc, step.user, step.bucket, step.bytes, step.count, "", 0);
    assert r.source == s.Key(d, d);
    FromSnoc(log.rows, r, "");
    forall e | 0 <= e < |s.names| && d != e
      ensures From(log.rows + [r], s.Source(e)) == From(log.rows, s.Source(e))
    {
      SourceNonEmpty(s, e);
      FromSnoc(log.rows, r, s.Source(e));
    }
  }

  lemma AppendKeepsInv(s: Setup, cl: Cluster, step: Step)
    requires Inv(s, cl) && step.Append? && Enabled(s, cl, step)
    ensures Inv(s, Apply(s, cl, step))
  {
    hide From, Own, Seen;
    AppendEffect(s, cl, step);
    var cl' := Apply(s, cl, step);
    forall d | 0 <= d < |s.names| ensures cl'.logs[d].Valid() && KnownSources(s, cl'.logs[d].rows, d) {
      if d != step.d { assert cl'.logs[d] == cl.logs[d]; }
    }
  }

  lemma FlushKeepsInv(s: Setup, cl: Cluster, d: nat)
    requires Inv(s, cl) && d < |s.names|
    ensures Inv(s, Apply(s, cl, Flush(d)))
  {
    var cl' := Apply(s, cl, Flush(d));
    forall e, i | 0 <= e < |s.names| && 0 <= i < |cl'.published[e]| ensures cl'.published[e][i] <= Own(cl', e) {
      if e == d && i == |cl.published[d]| {
        assert cl'.published[e][i] == Own(cl, d);
      } else {
        assert cl'.published[e][i] == cl.published[e][i];
      }
    }
    assert forall e :: 0 <= e < |s.names| ==> Own(cl', e) == Own(cl, e);
    assert forall d', e :: 0 <= d' < |s.names| && 0 <= e < |s.names| ==> Seen(s, cl', d', e) == Seen(s, cl, d', e);
  }

  lemma SyncEffect(s: Setup, cl: Cluster, d: nat, e: nat, i: nat, locs: map<string, string>)
    requires Inv(s, cl) && Enabled(s, cl, Sync(d, e, i, locs))
    ensures var cl' := Apply(s, cl, Sync(d, e, i, locs));
      var was, got := |Seen(s, cl, d, e)|, |cl.published[e][i]|;
      && cl'.logs[d].Valid()
      && IsPrefixCopy(Own(cl, e), Seen(s, cl', d, e))
      && Continues(locs, Own(cl, e), Seen(s, cl, d, e), Seen(s, cl', d, e))
      && |Seen(s, cl', d, e)| == (if got <= was then was else got)
      && (forall d', e' :: 0 <= d' < |s.names| && 0 <= e' < |s.names| && (d', e') != (d, e) ==>
        Seen(s, cl', d', e') == Seen(s, cl, d', e'))
      && (forall d' :: 0 <= d' < |s.names| ==> Own(cl', d') == Own(cl, d'))
      && (forall r :: r in cl'.logs[d].rows ==> r in cl.logs[d].rows || r.source == s.Source(e))
  {
    hide From, Log.Merge, IsPrefixCopy, Continues, KnownSources;
    SourceNonEmpty(s, e);
    FromAscending(cl.logs[e].rows, "");
    assert IsPrefixCopy(Own(cl, e), Seen(s, cl, d, e));
    MergeExtends(cl.logs[d], s.Source(e), locs, Own(cl, e), cl.published[e][i]);
    var cl' := Apply(s, cl, Sync(d, e, i, locs));
    forall d', e' | 0 <= d' < |s.names| && 0 <= e' < |s.names| && (d', e') != (d, e)
      ensures Seen(s, cl', d', e') == Seen(s, cl, d', e')
    {
      if d' == d && s.Source(e') == s.Source(e) {
        var n := |s.names|;
        KeysDistinct(s, n, e', e);
      }
    }
  }

  lemma SyncKeepsInv(s: Setup, cl: Cluster, d: nat, e: nat, i: nat, locs: map<string, string>)
    requires Inv(s, cl) && Enabled(s, cl, Sync(d, e, i, locs))
    ensures Inv(s, Apply(s, cl, Sync(d, e, i, locs)))
  {
    hide From, IsPrefixCopy;
    var cl' := Apply(s, cl, Sync(d, e, i, locs));
    SyncEffect(s, cl, d, e, i, locs);
    assert s.Source(e) == s.Key(d, e);
    forall d' | 0 <= d' < |s.names| ensures cl'.logs[d'].Valid() && KnownSources(s, cl'.logs[d'].rows, d') {
      if d' != d { assert cl'.logs[d'] == cl.logs[d']; }
    }
  }

  lemma StepKeepsInv(s: Setup, cl: Cluster, step: Step)
    requires Inv(s, cl) && Enabled(s, cl, step)
    ensures Inv(s, Apply(s, cl, step))
  {
    match step
    case Append(d, loc, user, bucket, bytes, count) => AppendKeepsInv(s, cl, step);
    case Flush(d) => FlushKeepsInv(s, cl, d);
    case Sync(d, e, i, locs) => SyncKeepsInv(s, cl, d, e, i, locs);
  }

  /**
   What a daemon has written only grows, and so does what it holds of every other one: a
   row once imported stays, under the location id it was given then.
   */
  lemma StepMonotone(s: Setup, cl: Cluster, step: Step)
    requires Inv(s, cl) && Enabled(s, cl, step)
    ensures var cl' := Apply(s, cl, step);
      && (forall e :: 0 <= e < |s.names| ==> Own(cl, e) <= Own(cl', e))
      && (forall d, e :: 0 <= d < |s.names| && 0 <= e < |s.names| && d != e ==>
        Seen(s, cl, d, e) <= Seen(s, cl', d, e))
  {
    match step
    case Append(d, loc, user, bucket, bytes, count) => AppendEffect(s, cl, step);
    case Flush(d) =>
    case Sync(d, e, i, locs) => SyncEffect(s, cl, d, e, i, locs);
  }

  /** Only a sync of the two daemons brings new rows, and it translates their location ids. */
  lemma StepTranslates(s: Setup, cl: Cluster, step: Step, d: nat, e: nat, t: nat)
    requires Inv(s, cl) && Enabled(s, cl, step) && d < |s.names| && e < |s.names| && d != e
    requires |Seen(s, cl, d, e)| <= t < |Seen(s, Apply(s, cl, step), d, e)|
    ensures Inv(s, Apply(s, cl, step)) && t < |Own(Apply(s, cl, step), e)|
    ensures step.Sync? && step.d == d && step.e == e && t < |cl.published[e][step.snapshot]|
    ensures Seen(s, Apply(s, cl, step), d, e)[t].loc == Mapped(step.locs, Own(Apply(s, cl, step), e)[t].loc)
  {
    hide From, Own, Seen;
    var cl' := Apply(s, cl, step);
    StepKeepsInv(s, cl, step);
    match step
    case Append(_, loc, user, bucket, bytes, count) => AppendEffect(s, cl, step);
    case Flush(_) => FlushSees(s, cl, step.d, d, e);
    case Sync(d', e', i, locs) => SyncEffect(s, cl, d', e', i, locs);
  }

  lemma FlushSees(s: Setup, cl: Cluster, f: nat, d: nat, e: nat)
    requires Inv(s, cl) && f < |s.names| && d < |s.names| && e < |s.names|
    ensures Seen(s, Apply(s, cl, Flush(f)), d, e) == Seen(s, cl, d, e)
  {
  }

  // ------------------------------------------------------------ totals

  /** What the first rows of `own` count for a location, by where their copies are. */
  function LocatedTotal(own: seq<Row>, seen: seq<Row>, loc: string): int
    requires |seen| <= |own|
  {
    if seen == [] then 0
    else
      var n := |seen| - 1;
      LocatedTotal(own, seen[..n], loc) + if seen[n].loc == loc then own[n].bytes else 0
  }

  /** What daemon e's deltas contribute to daemon d's total: those d has seen. */
  function ShareOf(s: Setup, cl: Cluster, d: nat, e: nat, loc: string): int
    requires d < |s.names| == |cl.logs| && e < |s.names|
    requires e != d ==> |Seen(s, cl, d, e)| <= |Own(cl, e)|
  {
    if e == d then Total(Own(cl, d), loc) else LocatedTotal(Own(cl, e), Seen(s, cl, d, e), loc)
  }

  function Shares(s: Setup, cl: Cluster, d: nat, loc: string, n: nat): int
    requires n <= |s.names| == |cl.logs| && d < |s.names|
    requires forall e :: 0 <= e < |s.names| && e != d ==> |Seen(s, cl, d, e)| <= |Own(cl, e)|
  {
    if n == 0 then 0 else Shares(s, cl, d, loc, n - 1) + ShareOf(s, cl, d, n - 1, loc)
  }

  /** The bytes these rows count for a location, once their location ids are translated. */
  function MappedTotal(to: string -> string, rows: seq<Row>, loc: string): int {
    if rows == [] then 0
    else
      var r := rows[|rows| - 1];
      MappedTotal(to, rows[..|rows| - 1], loc) + if to(r.loc) == loc then r.bytes else 0
  }

  /** The same as a share with nothing missing: every delta of daemon e, once. */
  function FullShareOf(s: Setup, cl: Cluster, d: nat, e: nat, loc: string, to: nat -> string -> string): int
    requires d < |s.names| == |cl.logs| && e < |s.names|
  {
    if e == d then Total(Own(cl, d), loc) else MappedTotal(to(e), Own(cl, e), loc)
  }

  function GlobalShares(s: Setup, cl: Cluster, d: nat, loc: string, to: nat -> string -> string, n: nat): int
    requires n <= |s.names| == |cl.logs| && d < |s.names|
  {
    if n == 0 then 0 else GlobalShares(s, cl, d, loc, to, n - 1) + FullShareOf(s, cl, d, n - 1, loc, to)
  }

  /** The table's total, source by source. */
  function KeyedTotal(s: Setup, rows: seq<Row>, d: nat, loc: string, n: nat): int
    requires n <= |s.names|
  {
    if n == 0 then 0 else KeyedTotal(s, rows, d, loc, n - 1) + Total(From(rows, s.Key(d, n - 1)), loc)
  }

  lemma {:induction false} KeyedStep(s: Setup, rows: seq<Row>, r: Row, d: nat, e: nat, loc: string, n: nat)
    requires s.Valid() && n <= |s.names| && e < |s.names| && r.source == s.Key(d, e)
    ensures KeyedTotal(s, rows + [r], d, loc, n) ==
      KeyedTotal(s, rows, d, loc, n) + if e < n && r.loc == loc then r.bytes else 0
  {
    hide From, Total;
    if n > 0 {
      KeyedStep(s, rows, r, d, e, loc, n - 1);
      FromSnoc(rows, r, s.Key(d, n - 1));
      TotalSnoc(From(rows, s.Key(d, n - 1)), r, loc);
      if s.Key(d, n - 1) == s.Key(d, e) { KeysDistinct(s, d, n - 1, e); }
    }
  }

  lemma TotalSnoc(rows: seq<Row>, r: Row, loc: string)
    ensures Total(rows + [r], loc) == Total(rows, loc) + if r.loc == loc then r.bytes else 0
    ensures rows + [] == rows
  {
    assert (rows + [r])[..|rows|] == rows;
  }

  lemma {:induction false} EmptyKeyed(s: Setup, d: nat, loc: string, n: nat)
    requires n <= |s.names|
    ensures KeyedTotal(s, [], d, loc, n) == 0
  {
    if n > 0 { EmptyKeyed(s, d, loc, n - 1); }
  }

  /** No row is counted twice and none is lost when a table is split by source. */
  lemma {:induction false} TotalBySource(s: Setup, rows: seq<Row>, d: nat, loc: string)
    requires s.Valid() && KnownSources(s, rows, d)
    ensures Total(rows, loc) == KeyedTotal(s, rows, d, loc, |s.names|)
  {
    if rows == [] {
      EmptyKeyed(s, d, loc, |s.names|);
    } else {
      var n := |rows| - 1;
      assert rows == rows[..n] + [rows[n]];
      assert forall r :: r in rows[..n] ==> r in rows;
      TotalBySource(s, rows[..n], d, loc);
      var e :| 0 <= e < |s.names| && rows[n].source == s.Key(d, e);
      KeyedStep(s, rows[..n], rows[n], d, e, loc, |s.names|);
    }
  }

  lemma {:induction false} CopyTotal(own: seq<Row>, seen: seq<Row>, loc: string)
    requires IsPrefixCopy(own, seen)
    ensures Total(seen, loc) == LocatedTotal(own, seen, loc)
  {
    if seen != [] {
      var n := |seen| - 1;
      CopyTotal(own, seen[..n], loc);
      assert IsCopy(own[n], seen[n]);
    }
  }

  lemma ShareIsKeyed(s: Setup, cl: Cluster, d: nat, e: nat, loc: string)
    requires Inv(s, cl) && d < |s.names| && e < |s.names|
    ensures Total(From(cl.logs[d].rows, s.Key(d, e)), loc) == ShareOf(s, cl, d, e, loc)
  {
    hide From;
    if e != d {
      assert IsPrefixCopy(Own(cl, e), Seen(s, cl, d, e));
      CopyTotal(Own(cl, e), Seen(s, cl, d, e), loc);
    }
  }

  lemma SharesDefined(s: Setup, cl: Cluster, d: nat)
    requires Inv(s, cl) && d < |s.names|
    ensures |cl.logs| == |s.names|
    ensures forall e :: 0 <= e < |s.names| && e != d ==> |Seen(s, cl, d, e)| <= |Own(cl, e)|
  {
    hide From;
    forall e | 0 <= e < |s.names| && e != d ensures |Seen(s, cl, d, e)| <= |Own(cl, e)| {
      assert IsPrefixCopy(Own(cl, e), Seen(s, cl, d, e));
    }
  }

  lemma {:induction false} KeyedIsShares(s: Setup, cl: Cluster, d: nat, loc: string, n: nat)
    requires Inv(s, cl) && d < |s.names| && n <= |s.names|
    ensures |cl.logs| == |s.names|
    ensures forall e :: 0 <= e < |s.names| && e != d ==> |Seen(s, cl, d, e)| <= |Own(cl, e)|
    ensures KeyedTotal(s, cl.logs[d].rows, d, loc, n) == Shares(s, cl, d, loc, n)
  {
    hide From, Total, ShareOf, Own, Seen, Inv;
    SharesDefined(s, cl, d);
    if n > 0 {
      KeyedIsShares(s, cl, d, loc, n - 1);
      ShareIsKeyed(s, cl, d, n - 1, loc);
    }
  }

  /**
   A daemon's total is its own deltas plus, for every other daemon, those in the first
   rows it has seen: nothing twice, nothing in between skipped.
   */
  lemma TotalIsShares(s: Setup, cl: Cluster, d: nat, loc: string)
    requires Inv(s, cl) && d < |s.names|
    ensures Total(cl.logs[d].rows, loc) == Shares(s, cl, d, loc, |s.names|)
  {
    TotalBySource(s, cl.logs[d].rows, d, loc);
    KeyedIsShares(s, cl, d, loc, |s.names|);
  }

  // ------------------------------------------------------------ runs

  ghost predicate IsRun(s: Setup, cls: seq<Cluster>, steps: seq<Step>) {
    && |cls| == |steps| + 1
    && Inv(s, cls[0])
    && forall i :: 0 <= i < |steps| ==>
      |cls[i].logs| == |cls[i].published| == |s.names| && Enabled(s, cls[i], steps[i])
      && cls[i + 1] == Apply(s, cls[i], steps[i])
  }

  /** Daemons that have not written anything yet. */
  function Initial(n: nat): Cluster {
    Cluster(seq(n, _ => Log([], 1)), seq(n, _ => []))
  }

  lemma InitialInv(s: Setup, d: nat, to: nat -> string -> string)
    requires s.Valid() && d < |s.names|
    ensures Inv(s, Initial(|s.names|)) && LocatedAs(s, Initial(|s.names|), d, to)
  {
  }

  lemma {:induction false} RunKeepsInv(s: Setup, cls: seq<Cluster>, steps: seq<Step>, i: nat)
    requires IsRun(s, cls, steps) && i < |cls|
    ensures Inv(s, cls[i])
  {
    hide Inv;
    if i > 0 {
      RunKeepsInv(s, cls, steps, i - 1);
      StepKeepsInv(s, cls[i - 1], steps[i - 1]);
    }
  }

  /** What each daemon has written, and what it holds of the others, only grows. */
  lemma {:induction false} RunMonotone(s: Setup, cls: seq<Cluster>, steps: seq<Step>, i: nat, j: nat)
    requires IsRun(s, cls, steps) && i <= j < |cls|
    ensures Inv(s, cls[i]) && Inv(s, cls[j])
    ensures forall e :: 0 <= e < |s.names| ==> Own(cls[i], e) <= Own(cls[j], e)
    ensures forall d, e :: 0 <= d < |s.names| && 0 <= e < |s.names| && d != e ==>
      Seen(s, cls[i], d, e) <= Seen(s, cls[j], d, e)
    decreases j - i
  {
    hide From, Apply, Enabled;
    RunKeepsInv(s, cls, steps, i);
    RunKeepsInv(s, cls, steps, j);
    if i < j {
      RunMonotone(s, cls, steps, i, j - 1);
      StepMonotone(s, cls[j - 1], steps[j - 1]);
    }
  }

  /** In every run, at every moment, every delta seen is counted exactly once. */
  lemma RunAccounting(s: Setup, cls: seq<Cluster>, steps: seq<Step>, i: nat, d: nat, loc: string)
    requires IsRun(s, cls, steps) && i < |cls| && d < |s.names|
    ensures Inv(s, cls[i])
    ensures Total(cls[i].logs[d].rows, loc) == Shares(s, cls[i], d, loc, |s.names|)
  {
    RunKeepsInv(s, cls, steps, i);
    TotalIsShares(s, cls[i], d, loc);
  }

  // ------------------------------------------------------------ catching up

  /** Daemon d holds everything daemon e has written. */
  ghost predicate CaughtUp(s: Setup, cl: Cluster, d: nat, e: nat)
    requires d < |cl.logs| && e < |s.names| && e < |cl.logs|
  {
    d == e || |Seen(s, cl, d, e)| == |Own(cl, e)|
  }

  /** Daemon d has the rows of every other daemon under these translations of their location ids. */
  ghost predicate LocatedAs(s: Setup, cl: Cluster, d: nat, to: nat -> string -> string)
    requires d < |cl.logs| == |s.names|
  {
    forall e, t :: 0 <= e < |s.names| && e != d && 0 <= t < |Seen(s, cl, d, e)| && t < |Own(cl, e)| ==>
      Seen(s, cl, d, e)[t].loc == to(e)(Own(cl, e)[t].loc)
  }

  /** A sync into d translates the rows it reads in this way. */
  ghost predicate TranslatesAs(s: Setup, cl: Cluster, step: Step, d: nat, to: nat -> string -> string)
    requires Enabled(s, cl, step)
  {
    step.Sync? && step.d == d ==>
      forall r :: r in cl.published[step.e][step.snapshot] ==> Mapped(step.locs, r.loc) == to(step.e)(r.loc)
  }

  lemma StepLocates(s: Setup, cl: Cluster, step: Step, d: nat, to: nat -> string -> string)
    requires Inv(s, cl) && Enabled(s, cl, step) && d < |s.names|
    requires LocatedAs(s, cl, d, to) && TranslatesAs(s, cl, step, d, to)
    ensures Inv(s, Apply(s, cl, step)) && LocatedAs(s, Apply(s, cl, step), d, to)
  {
    hide From, Own, Seen, Apply;
    var cl' := Apply(s, cl, step);
    StepKeepsInv(s, cl, step);
    StepMonotone(s, cl, step);
    forall e, t | 0 <= e < |s.names| && e != d && 0 <= t < |Seen(s, cl', d, e)| && t < |Own(cl', e)|
      ensures Seen(s, cl', d, e)[t].loc == to(e)(Own(cl', e)[t].loc)
    {
      assert IsPrefixCopy(Own(cl, e), Seen(s, cl, d, e));
      if t >= |Seen(s, cl, d, e)| {
        StepTranslates(s, cl, step, d, e, t);
        assert cl.published[e][step.snapshot] <= Own(cl, e);
        assert cl.published[e][step.snapshot][t] in cl.published[e][step.snapshot];
      }
    }
  }

  lemma {:induction false} RunLocates(
    s: Setup, cls: seq<Cluster>, steps: seq<Step>, d: nat, to: nat -> string -> string, i: nat)
    requires IsRun(s, cls, steps) && i < |cls| && d < |s.names| && LocatedAs(s, cls[0], d, to)
    requires forall k :: 0 <= k < |steps| ==> TranslatesAs(s, cls[k], steps[k], d, to)
    ensures Inv(s, cls[i]) && LocatedAs(s, cls[i], d, to)
  {
    hide Inv, LocatedAs, TranslatesAs;
    RunKeepsInv(s, cls, steps, i);
    if i > 0 {
      RunLocates(s, cls, steps, d, to, i - 1);
      StepLocates(s, cls[i - 1], steps[i - 1], d, to);
    }
  }

  lemma {:induction false} LocatedIsMapped(to: string -> string, own: seq<Row>, seen: seq<Row>, loc: string)
    requires |seen| <= |own| && forall t :: 0 <= t < |seen| ==> seen[t].loc == to(own[t].loc)
    ensures LocatedTotal(own, seen, loc) == MappedTotal(to, own[..|seen|], loc)
  {
    if seen != [] {
      var n := |seen| - 1;
      LocatedIsMapped(to, own, seen[..n], loc);
      assert own[..n + 1][..n] == own[..n];
    }
  }

  lemma {:induction false} CaughtUpShares(
    s: Setup, cl: Cluster, d: nat, loc: string, to: nat -> string -> string, n: nat)
    requires Inv(s, cl) && d < |s.names| && n <= |s.names| && LocatedAs(s, cl, d, to)
    requires forall e :: 0 <= e < |s.names| ==> CaughtUp(s, cl, d, e)
    ensures Shares(s, cl, d, loc, n) == GlobalShares(s, cl, d, loc, to, n)
  {
    hide From, Total, MappedTotal, LocatedTotal;
    if n > 0 {
      CaughtUpShares(s, cl, d, loc, to, n - 1);
      assert CaughtUp(s, cl, d, n - 1);
      if n - 1 != d { LocatedIsMapped(to(n - 1), Own(cl, n - 1), Seen(s, cl, d, n - 1), loc); }
      assert Own(cl, n - 1)[..|Own(cl, n - 1)|] == Own(cl, n - 1);
    }
  }

  /** From moment f on, nobody appends. */
  ghost predicate QuietFrom(steps: seq<Step>, f: nat) {
    forall k :: f <= k < |steps| ==> !steps[k].Append?
  }

  lemma QuietAt(steps: seq<Step>, f: nat, k: nat)
    requires QuietFrom(steps, f) && f <= k < |steps|
    ensures !steps[k].Append?
  {
  }

  /** In a quiet stretch, whatever is flushed is everything there is. */
  lemma {:induction false} QuietFlushesAll(s: Setup, cls: seq<Cluster>, steps: seq<Step>, f: nat, k: nat)
    requires IsRun(s, cls, steps) && QuietFrom(steps, f) && f <= k < |cls|
    ensures Inv(s, cls[f]) && Inv(s, cls[k])
    ensures forall e :: 0 <= e < |s.names| ==> Own(cls[k], e) == Own(cls[f], e)
    ensures forall e :: 0 <= e < |s.names| ==> |cls[f].published[e]| <= |cls[k].published[e]|
    ensures forall e, i :: 0 <= e < |s.names| && |cls[f].published[e]| <= i < |cls[k].published[e]| ==>
      cls[k].published[e][i] == Own(cls[f], e)
    decreases k - f
  {
    hide From, Own, Apply, QuietFrom;
    RunKeepsInv(s, cls, steps, f);
    RunKeepsInv(s, cls, steps, k);
    if f < k {
      assert !steps[k - 1].Append? by { QuietAt(steps, f, k - 1); }
      QuietFlushesAll(s, cls, steps, f, k - 1);
      QuietStep(s, cls[k - 1], steps[k - 1]);
    }
  }

  lemma QuietStep(s: Setup, cl: Cluster, step: Step)
    requires Inv(s, cl) && Enabled(s, cl, step) && !step.Append?
    ensures var cl' := Apply(s, cl, step);
      && (forall e :: 0 <= e < |s.names| ==> Own(cl', e) == Own(cl, e))
      && (forall e :: 0 <= e < |s.names| ==>
        cl'.published[e] == cl.published[e] || cl'.published[e] == cl.published[e] + [Own(cl, e)])
  {
    if step.Sync? { SyncEffect(s, cl, step.d, step.e, step.snapshot, step.locs); }
  }

  lemma SyncCatchesUp(s: Setup, cl: Cluster, d: nat, e: nat, i: nat, locs: map<string, string>)
    requires Inv(s, cl) && Enabled(s, cl, Sync(d, e, i, locs)) && cl.published[e][i] == Own(cl, e)
    ensures CaughtUp(s, Apply(s, cl, Sync(d, e, i, locs)), d, e)
  {
    SyncEffect(s, cl, d, e, i, locs);
  }

  /** Daemon d has, in the quiet stretch, synced from a snapshot daemon e flushed in it. */
  ghost predicate SyncedSince(cls: seq<Cluster>, steps: seq<Step>, f: nat, d: nat, e: nat)
    requires |cls| == |steps| + 1 && f < |cls| && e < |cls[f].published|
  {
    exists k :: f <= k < |steps| && steps[k].Sync? && steps[k].d == d && steps[k].e == e
      && steps[k].snapshot >= |cls[f].published[e]|
  }

  lemma SyncedIsCaughtUp(s: Setup, cls: seq<Cluster>, steps: seq<Step>, f: nat, d: nat, e: nat)
    requires IsRun(s, cls, steps) && QuietFrom(steps, f) && f < |cls|
    requires d < |s.names| && e < |s.names| && d != e && |cls[f].published| == |s.names|
      && SyncedSince(cls, steps, f, d, e)
    ensures Inv(s, cls[|steps|]) && CaughtUp(s, cls[|steps|], d, e)
  {
    hide From;
    var k :| f <= k < |steps| && steps[k].Sync? && steps[k].d == d && steps[k].e == e
      && steps[k].snapshot >= |cls[f].published[e]|;
    QuietFlushesAll(s, cls, steps, f, k);
    SyncCatchesUp(s, cls[k], d, e, steps[k].snapshot, steps[k].locs);
    QuietFlushesAll(s, cls, steps, f, k + 1);
    QuietFlushesAll(s, cls, steps, f, |steps|);
    RunMonotone(s, cls, steps, k + 1, |steps|);
    assert IsPrefixCopy(Own(cls[|steps|], e), Seen(s, cls[|steps|], d, e));
  }

  /**
   Once appends stop, every daemon flushes, and every daemon then syncs from each other
   one, all totals are the sum of every delta ever appended.  A delta counts for the
   location that the first sync to bring it translated its location id to; `to` says which,
   and no sync may have disagreed.
   */
  lemma TotalsConverge(
    s: Setup, cls: seq<Cluster>, steps: seq<Step>, f: nat, d: nat, loc: string, to: nat -> string -> string)
    requires IsRun(s, cls, steps) && QuietFrom(steps, f) && f < |cls| && d < |s.names|
    requires |cls[f].published| == |s.names|
    requires forall e :: 0 <= e < |s.names| && e != d ==> SyncedSince(cls, steps, f, d, e)
    requires LocatedAs(s, cls[0], d, to)
    requires forall k :: 0 <= k < |steps| ==> TranslatesAs(s, cls[k], steps[k], d, to)
    ensures Inv(s, cls[|steps|])
    ensures Total(cls[|steps|].logs[d].rows, loc) == GlobalShares(s, cls[|steps|], d, loc, to, |s.names|)
  {
    hide SyncedSince, QuietFrom, LocatedAs, TranslatesAs;
    RunAccounting(s, cls, steps, |steps|, d, loc);
    forall e | 0 <= e < |s.names| ensures CaughtUp(s, cls[|steps|], d, e) {
      if e != d { SyncedIsCaughtUp(s, cls, steps, f, d, e); }
    }
    RunLocates(s, cls, steps, d, to, |steps|);
    CaughtUpShares(s, cls[|steps|], d, loc, to, |s.names|);
  }
}
