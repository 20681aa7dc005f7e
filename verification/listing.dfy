/**
 Listing a bucket: the LIKE pattern of a prefix, the query, and the batched scan that
 groups keys by a delimiter.  Keys stand for their rows.
 */
module Listing {
  import opened GoStrings
  import opened Collections

  // ------------------------------------------------------------ LIKE

  /** SQLite's LIKE folds the case of ASCII letters. */
  function Fold(c: char): char {
    if 'A' <= c <= 'Z' then c - 'A' + 'a' else c
  }

  predicate FoldedPrefix(p: string, k: string) {
    |p| <= |k| && forall i :: 0 <= i < |p| ==> Fold(p[i]) == Fold(k[i])
  }

  /** key LIKE pattern ESCAPE '\' */
  predicate Like(pattern: string, s: string)
    decreases |pattern|, |s|
  {
    if pattern == [] then s == []
    else if pattern[0] == '\\' then
      |pattern| >= 2 && s != [] && Fold(pattern[1]) == Fold(s[0]) && Like(pattern[2..], s[1..])
    else if pattern[0] == '%' then
      Like(pattern[1..], s) || (s != [] && Like(pattern, s[1..]))
    else s != [] && (pattern[0] == '_' || Fold(pattern[0]) == Fold(s[0])) && Like(pattern[1..], s[1..])
  }

  predicate Special(c: char) {
    c == '%' || c == '_' || c == '\\'
  }

  function Escaped(s: string): string {
    if s == [] then [] else (if Special(s[0]) then ['\\', s[0]] else [s[0]]) + Escaped(s[1..])
  }

  lemma {:induction false} EscapedAppend(s: string, t: string)
    ensures Escaped(s + t) == Escaped(s) + Escaped(t)
  {
    if s == [] {
      assert s + t == t;
    } else {
      assert (s + t)[1..] == s[1..] + t;
      EscapedAppend(s[1..], t);
    }
  }

  method EscapeLike(s: string) returns (out: string)
    ensures out == Escaped(s)
  {
    out := [];
    for i := 0 to |s|
      invariant out == Escaped(s[..i])
    {
      assert s[..i + 1] == s[..i] + [s[i]];
      EscapedAppend(s[..i], [s[i]]);
      if Special(s[i]) {
        out := out + ['\\'];
      }
      out := out + [s[i]];
    }
    assert s[..|s|] == s;
  }

  lemma {:induction false} AnythingMatches(s: string)
    ensures Like("%", s)
  {
    if s != [] {
      AnythingMatches(s[1..]);
    }
  }

  /**
   The escaped prefix followed by `%` matches exactly the keys that start with the prefix
   up to the case of ASCII letters, whatever characters the prefix has.
   */
  lemma {:induction false} LikeEscaped(p: string, k: string)
    ensures Like(Escaped(p) + "%", k) <==> FoldedPrefix(p, k)
  {
    if p == [] {
      AnythingMatches(k);
      assert Escaped(p) + "%" == "%";
    } else {
      var rest := Escaped(p[1..]) + "%";
      if Special(p[0]) {
        assert Escaped(p) + "%" == ['\\', p[0]] + rest;
        assert (['\\', p[0]] + rest)[2..] == rest;
      } else {
        assert Escaped(p) + "%" == [p[0]] + rest;
        assert ([p[0]] + rest)[1..] == rest;
      }
      if k != [] {
        LikeEscaped(p[1..], k[1..]);
      }
    }
  }

  // ------------------------------------------------------------ ORDER BY key

  ghost predicate Ordered(s: seq<string>) {
    forall i, j :: 0 <= i < j < |s| ==> Less(s[i], s[j])
  }

  lemma {:induction false} HasLeast(s: set<string>)
    requires s != {}
    ensures exists m :: m in s && forall x :: x in s ==> AtMost(m, x)
  {
    var x: string :| x in s;
    var rest := s - {x};
    assert forall y :: y in s ==> y == x || y in rest;
    if rest == {} {
      assert forall y :: y in s ==> AtMost(x, y);
    } else {
      HasLeast(rest);
      var m :| m in rest && forall y :: y in rest ==> AtMost(m, y);
      LessTotal(x, m);
      var k := if Less(x, m) then x else m;
      forall y | y in s ensures AtMost(k, y) {
        if y != x && Less(x, m) && m != y {
          LessTransitive(x, m, y);
        }
      }
      assert k in s;
    }
  }

  ghost function SortedKeys(s: set<string>): (r: seq<string>)
    ensures forall x :: x in r <==> x in s
  {
    if s == {} then []
    else
      HasLeast(s);
      var m :| m in s && forall x :: x in s ==> AtMost(m, x);
      [m] + SortedKeys(s - {m})
  }

  lemma {:induction false} SortedOrdered(s: set<string>)
    ensures Ordered(SortedKeys(s))
  {
    if s != {} {
      var m := SortedKeys(s)[0];
      var rest := SortedKeys(s)[1..];
      assert m in s;
      assert rest == SortedKeys(s - {m});
      SortedOrdered(s - {m});
      forall x | x in rest ensures Less(m, x) {
        assert x in s - {m};
        assert AtMost(m, x);
      }
      forall i, j | 0 <= i < j < |SortedKeys(s)| ensures Less(SortedKeys(s)[i], SortedKeys(s)[j]) {
        assert rest[j - 1] in rest;
        if i > 0 { assert Less(rest[i - 1], rest[j - 1]); }
      }
    }
  }

  /** An ordered sequence is determined by its elements. */
  lemma {:induction false} OrderedUnique(a: seq<string>, b: seq<string>)
    requires Ordered(a) && Ordered(b)
    requires forall x :: x in a <==> x in b
    ensures a == b
  {
    assert a != [] ==> a[0] in a;
    assert b != [] ==> b[0] in b;
    if a != [] && b != [] {
      if Less(a[0], b[0]) { LessAsymmetric(a[0], b[0]); }
      assert a[0] == b[0];
      TailElements(a);
      TailElements(b);
      OrderedUnique(a[1..], b[1..]);
    }
  }

  lemma TailElements(a: seq<string>)
    requires Ordered(a) && a != []
    ensures forall x :: x in a[1..] <==> x in a && x != a[0]
    ensures Ordered(a[1..])
  {
    assert a == [a[0]] + a[1..];
    forall x | x in a[1..] ensures x != a[0] {
      var i :| 0 <= i < |a[1..]| && a[1..][i] == x;
      LessAsymmetric(a[0], a[i + 1]);
    }
  }

  // ------------------------------------------------------------ the query

  /** The WHERE clause: nothing is compared with an empty prefix or an empty cursor. */
  predicate Selected(prefix: string, startAfter: string, k: string) {
    && (prefix == "" || Like(Escaped(prefix) + "%", k))
    && (startAfter == "" || Less(startAfter, k))
  }

  /** All rows the query would return without a limit. */
  ghost function Rows(table: set<string>, prefix: string, startAfter: string): seq<string> {
    SortedKeys(set k | k in table && Selected(prefix, startAfter, k))
  }

  function Cut<T>(s: seq<T>, n: nat): seq<T> {
    if |s| <= n then s else s[..n]
  }

  lemma RowsAre(table: set<string>, prefix: string, startAfter: string)
    ensures Ordered(Rows(table, prefix, startAfter))
    ensures forall k :: k in Rows(table, prefix, startAfter) <==>
      k in table && FoldedPrefix(prefix, k) && (startAfter == "" || Less(startAfter, k))
  {
    SortedOrdered(set k | k in table && Selected(prefix, startAfter, k));
    forall k ensures Like(Escaped(prefix) + "%", k) <==> FoldedPrefix(prefix, k) {
      LikeEscaped(prefix, k);
    }
  }

  function Inserted(k: string, s: seq<string>): (r: seq<string>)
    ensures forall x :: x in r <==> x == k || x in s
  {
    if s == [] || Less(k, s[0]) then [k] + s
    else
      assert s == [s[0]] + s[1..];
      [s[0]] + Inserted(k, s[1..])
  }

  lemma {:induction false} InsertedOrdered(k: string, s: seq<string>)
    requires Ordered(s) && k !in s
    ensures Ordered(Inserted(k, s))
  {
    if s == [] {
    } else if Less(k, s[0]) {
      forall i | 0 <= i < |s| ensures Less(k, s[i]) {
        if i > 0 { LessTransitive(k, s[0], s[i]); }
      }
    } else {
      LessTotal(k, s[0]);
      TailElements(s);
      InsertedOrdered(k, s[1..]);
      var r := Inserted(k, s[1..]);
      forall x | x in r ensures Less(s[0], x) {
        if x != k {
          var i :| 0 <= i < |s[1..]| && s[1..][i] == x;
          assert Less(s[0], s[i + 1]);
        }
      }
    }
  }

  /** SELECT ... ORDER BY key, with a LIMIT when `limit` is positive. */
  method Query(table: set<string>, prefix: string, startAfter: string, limit: int) returns (rows: seq<string>)
    ensures rows == if limit > 0 then Cut(Rows(table, prefix, startAfter), limit) else Rows(table, prefix, startAfter)
  {
    var escaped := EscapeLike(prefix);
    var left := table;
    rows := [];
    while left != {}
      invariant left <= table && Ordered(rows)
      invariant forall k :: k in rows <==> k in table - left && Selected(prefix, startAfter, k)
      decreases |left|
    {
      var k := Any(left);
      left := left - {k};
      if (prefix == "" || Like(escaped + "%", k)) && (startAfter == "" || Less(startAfter, k)) {
        InsertedOrdered(k, rows);
        rows := Inserted(k, rows);
      }
    }
    var wanted := set k | k in table && Selected(prefix, startAfter, k);
    SortedOrdered(wanted);
    OrderedUnique(rows, SortedKeys(wanted));
    if limit > 0 {
      rows := Cut(rows, limit);
    }
  }

  /** Continuing after a row gives the rows that follow it. */
  lemma RowsContinue(table: set<string>, prefix: string, startAfter: string, n: nat)
    requires "" !in table
    requires 0 < n <= |Rows(table, prefix, startAfter)|
    ensures Rows(table, prefix, Rows(table, prefix, startAfter)[n - 1]) == Rows(table, prefix, startAfter)[n..]
  {
    var all := Rows(table, prefix, startAfter);
    var cursor := all[n - 1];
    var next := Rows(table, prefix, cursor);
    RowsAre(table, prefix, startAfter);
    RowsAre(table, prefix, cursor);
    assert cursor in all && cursor != "";
    forall k ensures k in next <==> k in all[n..] {
      if k in next {
        if startAfter != "" { LessTransitive(startAfter, cursor, k); }
        assert k in all;
        var i :| 0 <= i < |all| && all[i] == k;
        if i < n - 1 { LessAsymmetric(all[i], all[n - 1]); }
        LessIrreflexive(cursor);
        assert i >= n && all[n..][i - n] == k;
      }
      if k in all[n..] {
        var i :| 0 <= i < |all[n..]| && all[n..][i] == k;
        assert all[n + i] == k && Less(all[n - 1], all[n + i]);
        assert k in all;
      }
    }
    OrderedUnique(next, all[n..]);
  }

  // ------------------------------------------------------------ grouping

  datatype Item = Key(key: string) | Group(name: string)

  /** The entry of the listing that a key belongs to. */
  function ItemOf(prefix: string, delimiter: string, k: string): (x: Item)
    requires |prefix| <= |k|
    ensures x.Key? ==> x.key == k
  {
    var rest := k[|prefix|..];
    var i := Index(rest, delimiter);
    if delimiter != "" && i >= 0 then Group(prefix + rest[..i + |delimiter|]) else Key(k)
  }

  /** One pass over the rows: each entry once, where it first occurs. */
  ghost function Items(prefix: string, delimiter: string, rows: seq<string>): (r: seq<Item>)
    requires forall k :: k in rows ==> |prefix| <= |k|
    ensures |r| <= |rows|
  {
    if rows == [] then []
    else
      var before := Items(prefix, delimiter, rows[..|rows| - 1]);
      var x := ItemOf(prefix, delimiter, rows[|rows| - 1]);
      if x in before then before else before + [x]
  }

  function KeysIn(items: seq<Item>): seq<string> {
    if items == [] then []
    else KeysIn(items[..|items| - 1]) + match items[|items| - 1] { case Key(k) => [k] case Group(_) => [] }
  }

  function GroupsIn(items: seq<Item>): seq<string> {
    if items == [] then []
    else GroupsIn(items[..|items| - 1]) + match items[|items| - 1] { case Key(_) => [] case Group(g) => [g] }
  }

  /** The entries are those of the rows, none of them twice. */
  lemma {:induction false} ItemsAre(prefix: string, delimiter: string, rows: seq<string>)
    requires forall k :: k in rows ==> |prefix| <= |k|
    ensures forall x :: x in Items(prefix, delimiter, rows) <==>
      (exists k :: k in rows && ItemOf(prefix, delimiter, k) == x)
    ensures forall i, j :: 0 <= i < j < |Items(prefix, delimiter, rows)| ==>
      Items(prefix, delimiter, rows)[i] != Items(prefix, delimiter, rows)[j]
  {
    if rows != [] {
      var front, last := rows[..|rows| - 1], rows[|rows| - 1];
      ItemsAre(prefix, delimiter, front);
      assert rows == front + [last];
      assert forall k :: k in rows <==> k in front || k == last;
    }
  }

  /** What a first run of rows contributes stays at the front. */
  lemma {:induction false} ItemsPrefix(prefix: string, delimiter: string, rows: seq<string>, n: nat)
    requires forall k :: k in rows ==> |prefix| <= |k|
    requires n <= |rows|
    ensures forall k :: k in rows[..n] ==> |prefix| <= |k|
    ensures Items(prefix, delimiter, rows[..n]) <= Items(prefix, delimiter, rows)
    decreases |rows|
  {
    if n < |rows| {
      var front := rows[..|rows| - 1];
      assert front[..n] == rows[..n];
      assert forall k :: k in front ==> k in rows;
      ItemsPrefix(prefix, delimiter, front, n);
    } else {
      assert rows[..n] == rows;
    }
  }

  /** Without a delimiter every row is its own entry. */
  lemma {:induction false} NoGroups(prefix: string, rows: seq<string>)
    requires forall k :: k in rows ==> |prefix| <= |k|
    requires Ordered(rows)
    ensures |Items(prefix, "", rows)| == |rows|
    ensures forall i :: 0 <= i < |rows| ==> Items(prefix, "", rows)[i] == Key(rows[i])
  {
    if rows != [] {
      var front := rows[..|rows| - 1];
      NoGroups(prefix, front);
      forall i | 0 <= i < |front| ensures front[i] != rows[|rows| - 1] {
        LessAsymmetric(rows[i], rows[|rows| - 1]);
      }
    }
  }

  lemma {:induction false} KeysOnly(items: seq<Item>, keys: seq<string>)
    requires |items| == |keys| && forall i :: 0 <= i < |keys| ==> items[i] == Key(keys[i])
    ensures KeysIn(items) == keys && GroupsIn(items) == []
  {
    if items != [] {
      KeysOnly(items[..|items| - 1], keys[..|keys| - 1]);
      assert keys == keys[..|keys| - 1] + [keys[|keys| - 1]];
    }
  }

  lemma {:induction false} CountParts(items: seq<Item>)
    ensures |KeysIn(items)| + |GroupsIn(items)| == |items|
    ensures forall g :: g in GroupsIn(items) <==> Group(g) in items
    ensures forall k :: k in KeysIn(items) <==> Key(k) in items
  {
    if items != [] {
      var front := items[..|items| - 1];
      CountParts(front);
      assert items == front + [items[|items| - 1]];
    }
  }

  /** The page of a listing: its first `maxKeys` entries, or all of them. */
  ghost function Page(table: set<string>, prefix: string, delimiter: string, startAfter: string,
                      maxKeys: int): seq<Item>
  {
    RowsAre(table, prefix, startAfter);
    var items := Items(prefix, delimiter, Rows(table, prefix, startAfter));
    if maxKeys > 0 then Cut(items, maxKeys) else items
  }

  /**
   Fetches rows in batches until the page is full or there are no more rows.  The result
   is that of one pass over all rows, cut at the first `maxKeys` distinct entries: batch
   boundaries leave no trace.
   */
  method ListObjectsBatched(table: set<string>, prefix: string, delimiter: string, startAfter: string, maxKeys: nat)
      returns (objects: seq<string>, commonPrefixes: seq<string>)
    requires "" !in table && delimiter != ""
    ensures objects == KeysIn(Page(table, prefix, delimiter, startAfter, maxKeys))
    ensures commonPrefixes == GroupsIn(Page(table, prefix, delimiter, startAfter, maxKeys))
  {
    var batchSize := if maxKeys == 0 then 10000 else maxKeys;
    objects, commonPrefixes := ScanBatches(table, prefix, delimiter, startAfter, maxKeys, batchSize);
  }

  method ScanBatches(table: set<string>, prefix: string, delimiter: string, startAfter: string, maxKeys: nat,
                     batchSize: nat)
      returns (objects: seq<string>, commonPrefixes: seq<string>)
    requires "" !in table && delimiter != "" && batchSize > 0
    ensures objects == KeysIn(Page(table, prefix, delimiter, startAfter, maxKeys))
    ensures commonPrefixes == GroupsIn(Page(table, prefix, delimiter, startAfter, maxKeys))
  {
    hide Items, KeysIn, GroupsIn, Rows, Ordered, FoldedPrefix, Scanned, Page, Less, Selected, Cut;
    ghost var all := Rows(table, prefix, startAfter);
    NothingScanned(prefix, delimiter, all);
    ghost var n: nat := 0;
    objects, commonPrefixes := [], [];
    var seen: set<string> := {};
    var cursor := startAfter;
    var full := false;
    while true
      invariant n <= |all| && cursor == if n == 0 then startAfter else all[n - 1]
      invariant Scanned(prefix, delimiter, all[..n], objects, commonPrefixes, seen)
      invariant maxKeys > 0 ==> |objects| + |commonPrefixes| < maxKeys
      decreases |all| - n
    {
      var rows := Query(table, prefix, cursor, batchSize);
      BatchFollows(table, prefix, startAfter, n, cursor, rows, batchSize);
      var read;
      objects, commonPrefixes, seen, read :=
        ScanRows(all[..n], rows, prefix, delimiter, objects, commonPrefixes, seen, maxKeys);
      BatchRead(all, n, rows, read);
      if maxKeys > 0 && |objects| + |commonPrefixes| >= maxKeys {
        ScanFinished(table, prefix, delimiter, startAfter, maxKeys, n + read, objects, commonPrefixes, seen);
        return;
      }
      if |rows| == 0 {
        ScanFinished(table, prefix, delimiter, startAfter, maxKeys, n, objects, commonPrefixes, seen);
        return;
      }
      cursor := rows[|rows| - 1];
      n := n + |rows|;
    }
  }

  /** Goes through one batch of rows, and stops in the middle of it when the page is full. */
  method ScanRows(ghost before: seq<string>, rows: seq<string>, prefix: string, delimiter: string,
                  objects0: seq<string>, commonPrefixes0: seq<string>, seen0: set<string>, maxKeys: nat)
      returns (objects: seq<string>, commonPrefixes: seq<string>, seen: set<string>, read: nat)
    requires Ordered(before + rows) && delimiter != ""
    requires Scanned(prefix, delimiter, before, objects0, commonPrefixes0, seen0)
    requires forall k :: k in before + rows ==> |prefix| <= |k|
    requires maxKeys > 0 ==> |objects0| + |commonPrefixes0| < maxKeys
    ensures read <= |rows|
    ensures Scanned(prefix, delimiter, (before + rows)[..|before| + read], objects, commonPrefixes, seen)
    ensures maxKeys > 0 ==> |objects| + |commonPrefixes| <= maxKeys
    ensures read == |rows| || (maxKeys > 0 && |objects| + |commonPrefixes| == maxKeys)
  {
    hide Items, KeysIn, GroupsIn, Ordered, Scanned;
    ghost var all := before + rows;
    objects, commonPrefixes, seen := objects0, commonPrefixes0, seen0;
    assert all[..|before|] == before;
    for i := 0 to |rows|
      invariant Scanned(prefix, delimiter, all[..|before| + i], objects, commonPrefixes, seen)
      invariant maxKeys > 0 ==> |objects| + |commonPrefixes| < maxKeys
    {
      var k := rows[i];
      assert k == all[|before| + i];
      assert k in all;
      var rest := k[|prefix|..];
      var idx := Index(rest, delimiter);
      ScanStep(prefix, delimiter, all, |before| + i, objects, commonPrefixes, seen);
      if idx >= 0 {
        var cp := prefix + rest[..idx + |delimiter|];
        assert cp in seen ==> seen + {cp} == seen;
        if cp !in seen {
          seen := seen + {cp};
          commonPrefixes := commonPrefixes + [cp];
        }
      } else {
        objects := objects + [k];
      }
      if maxKeys > 0 && |objects| + |commonPrefixes| >= maxKeys {
        read := i + 1;
        return;
      }
    }
    read := |rows|;
  }

  /** What the scan has collected after these rows. */
  ghost predicate Scanned(prefix: string, delimiter: string, rows: seq<string>,
                          objects: seq<string>, commonPrefixes: seq<string>, seen: set<string>) {
    && (forall k :: k in rows ==> |prefix| <= |k|)
    && var items := Items(prefix, delimiter, rows);
       objects == KeysIn(items) && commonPrefixes == GroupsIn(items) && forall g :: g in seen <==> Group(g) in items
  }

  lemma NothingScanned(prefix: string, delimiter: string, all: seq<string>)
    ensures Scanned(prefix, delimiter, all[..0], [], [], {})
  {
  }

  /** The next batch is the next stretch of the rows. */
  lemma BatchFollows(table: set<string>, prefix: string, startAfter: string, n: nat, cursor: string,
                     rows: seq<string>, batchSize: nat)
    requires "" !in table && batchSize > 0 && n <= |Rows(table, prefix, startAfter)|
    requires cursor == if n == 0 then startAfter else Rows(table, prefix, startAfter)[n - 1]
    requires rows == Cut(Rows(table, prefix, cursor), batchSize)
    ensures var all := Rows(table, prefix, startAfter);
      && n + |rows| <= |all| && all[..n] + rows == all[..n + |rows|]
      && (rows == [] ==> n == |all|)
      && (rows != [] ==> rows[|rows| - 1] == all[n + |rows| - 1])
      && Ordered(all[..n] + rows)
      && (forall k :: k in all[..n] + rows ==> |prefix| <= |k|)
  {
    hide Rows, Less, FoldedPrefix;
    var all := Rows(table, prefix, startAfter);
    RowsLong(table, prefix, startAfter);
    if n > 0 { RowsContinue(table, prefix, startAfter, n); }
    assert all[n..] == Rows(table, prefix, cursor);
    assert rows <= all[n..];
    assert all[..n] + rows == all[..n + |rows|];
    RowsAre(table, prefix, startAfter);
  }

  lemma BatchRead(all: seq<string>, n: nat, rows: seq<string>, read: nat)
    requires n + |rows| <= |all| && all[..n] + rows == all[..n + |rows|] && read <= |rows|
    ensures (all[..n] + rows)[..n + read] == all[..n + read]
  {
  }

  /** The scan stops where the page is full or the rows end. */
  lemma ScanFinished(table: set<string>, prefix: string, delimiter: string, startAfter: string, maxKeys: nat, n: nat,
                     objects: seq<string>, commonPrefixes: seq<string>, seen: set<string>)
    requires n <= |Rows(table, prefix, startAfter)|
    requires Scanned(prefix, delimiter, Rows(table, prefix, startAfter)[..n], objects, commonPrefixes, seen)
    requires maxKeys > 0 ==> |objects| + |commonPrefixes| <= maxKeys
    requires (maxKeys > 0 && |objects| + |commonPrefixes| == maxKeys) || n == |Rows(table, prefix, startAfter)|
    ensures objects == KeysIn(Page(table, prefix, delimiter, startAfter, maxKeys))
    ensures commonPrefixes == GroupsIn(Page(table, prefix, delimiter, startAfter, maxKeys))
  {
    hide KeysIn, GroupsIn, Rows, FoldedPrefix, Ordered;
    var all := Rows(table, prefix, startAfter);
    RowsLong(table, prefix, startAfter);
    CountScanned(prefix, delimiter, all[..n], objects, commonPrefixes, seen);
    ItemsPrefix(prefix, delimiter, all, n);
    assert n == |all| ==> all[..n] == all;
    assert Page(table, prefix, delimiter, startAfter, maxKeys) == Items(prefix, delimiter, all[..n]);
  }

  lemma CountScanned(prefix: string, delimiter: string, rows: seq<string>,
                     objects: seq<string>, commonPrefixes: seq<string>, seen: set<string>)
    requires Scanned(prefix, delimiter, rows, objects, commonPrefixes, seen)
    ensures |objects| + |commonPrefixes| == |Items(prefix, delimiter, rows)|
  {
    CountParts(Items(prefix, delimiter, rows));
  }

  lemma RowsLong(table: set<string>, prefix: string, startAfter: string)
    ensures Ordered(Rows(table, prefix, startAfter))
    ensures forall k :: k in Rows(table, prefix, startAfter) ==> |prefix| <= |k|
  {
    RowsAre(table, prefix, startAfter);
  }

  /** A key occurs in one row only. */
  lemma KeyIsNew(prefix: string, delimiter: string, all: seq<string>, n: nat)
    requires n < |all| && Ordered(all) && forall k :: k in all ==> |prefix| <= |k|
    requires ItemOf(prefix, delimiter, all[n]) == Key(all[n])
    ensures Key(all[n]) !in Items(prefix, delimiter, all[..n])
  {
    ItemsAre(prefix, delimiter, all[..n]);
    forall i | 0 <= i < n ensures all[i] != all[n] {
      LessAsymmetric(all[i], all[n]);
    }
  }

  lemma ItemsStep(prefix: string, delimiter: string, all: seq<string>, n: nat)
    requires n < |all| && forall k :: k in all ==> |prefix| <= |k|
    ensures all[n] in all
    ensures
      var before := Items(prefix, delimiter, all[..n]);
      var x := ItemOf(prefix, delimiter, all[n]);
      Items(prefix, delimiter, all[..n + 1]) == if x in before then before else before + [x]
  {
    assert all[..n + 1][..n] == all[..n];
  }

  lemma PartsStep(items: seq<Item>, x: Item)
    ensures KeysIn(items + [x]) == if x.Key? then KeysIn(items) + [x.key] else KeysIn(items)
    ensures GroupsIn(items + [x]) == if x.Group? then GroupsIn(items) + [x.name] else GroupsIn(items)
  {
    assert (items + [x])[..|items|] == items;
  }

  lemma ScanStep(prefix: string, delimiter: string, all: seq<string>, n: nat,
                 objects: seq<string>, commonPrefixes: seq<string>, seen: set<string>)
    requires n < |all| && Ordered(all) && forall k :: k in all ==> |prefix| <= |k|
    requires Scanned(prefix, delimiter, all[..n], objects, commonPrefixes, seen)
    ensures all[n] in all
    ensures match ItemOf(prefix, delimiter, all[n])
      case Key(k) => Scanned(prefix, delimiter, all[..n + 1], objects + [k], commonPrefixes, seen)
      case Group(g) => Scanned(prefix, delimiter, all[..n + 1],
                               objects, if g in seen then commonPrefixes else commonPrefixes + [g], seen + {g})
  {
    hide Ordered, ItemOf, Items, KeysIn, GroupsIn;
    var x := ItemOf(prefix, delimiter, all[n]);
    var items := Items(prefix, delimiter, all[..n]);
    ItemsStep(prefix, delimiter, all, n);
    PartsStep(items, x);
    if x.Key? {
      KeyIsNew(prefix, delimiter, all, n);
    }
  }

  lemma PageWithoutDelimiter(table: set<string>, prefix: string, startAfter: string, maxKeys: int)
    ensures var page := Page(table, prefix, "", startAfter, maxKeys); var rows := Rows(table, prefix, startAfter);
      && KeysIn(page) == (if maxKeys > 0 then Cut(rows, maxKeys) else rows) && GroupsIn(page) == []
      && |page| == |KeysIn(page)|
  {
    RowsAre(table, prefix, startAfter);
    var rows := Rows(table, prefix, startAfter);
    NoGroups(prefix, rows);
    KeysOnly(Page(table, prefix, "", startAfter, maxKeys), if maxKeys > 0 then Cut(rows, maxKeys) else rows);
  }

  /** One query is enough when every row is an entry of its own. */
  method ListObjects(table: set<string>, prefix: string, delimiter: string, startAfter: string, maxKeys: nat)
      returns (objects: seq<string>, commonPrefixes: seq<string>)
    requires "" !in table
    ensures objects == KeysIn(Page(table, prefix, delimiter, startAfter, maxKeys))
    ensures commonPrefixes == GroupsIn(Page(table, prefix, delimiter, startAfter, maxKeys))
  {
    hide Page, Rows, KeysIn, GroupsIn;
    if delimiter == "" {
      objects := Query(table, prefix, startAfter, maxKeys);
      commonPrefixes := [];
      PageWithoutDelimiter(table, prefix, startAfter, maxKeys);
    } else {
      objects, commonPrefixes := ListObjectsBatched(table, prefix, delimiter, startAfter, maxKeys);
    }
  }

  // ------------------------------------------------------------ pages

  /** `next` is the key inside the continuation token, empty when there is none. */
  datatype ListResult = ListResult(objects: seq<string>, commonPrefixes: seq<string>, truncated: bool, next: string)

  function Limit(maxKeys: int): nat {
    if maxKeys <= 0 then 1000 else maxKeys
  }

  function LastOf(s: seq<string>): string
    requires s != []
  {
    s[|s| - 1]
  }

  /** Cuts a page of one entry too many, and says where the next page starts. */
  method Trim(objects: seq<string>, commonPrefixes: seq<string>, maxKeys: nat) returns (r: ListResult)
    requires maxKeys > 0 && |objects| + |commonPrefixes| <= maxKeys + 1
    ensures r == Trimmed(objects, commonPrefixes, maxKeys)
  {
    r := ListResult([], [], false, "");
    if |objects| + |commonPrefixes| > maxKeys {
      r := r.(truncated := true);
      if |objects| > maxKeys {
        r := r.(objects := objects[..maxKeys], commonPrefixes := []);
      } else {
        var remaining := maxKeys - |objects|;
        r := r.(objects := objects, commonPrefixes := commonPrefixes[..remaining]);
      }
      if |r.objects| > 0 {
        r := r.(next := r.objects[|r.objects| - 1]);
      } else if |r.commonPrefixes| > 0 {
        r := r.(next := r.commonPrefixes[|r.commonPrefixes| - 1]);
      }
    } else {
      r := r.(objects := objects, commonPrefixes := commonPrefixes);
    }
  }

  /** Objects are kept before common prefixes. */
  function Trimmed(objects: seq<string>, commonPrefixes: seq<string>, maxKeys: nat): ListResult
    requires maxKeys > 0
  {
    if |objects| + |commonPrefixes| <= maxKeys then ListResult(objects, commonPrefixes, false, "")
    else
      var kept := Cut(objects, maxKeys);
      var groups := Cut(commonPrefixes, maxKeys - |kept|);
      ListResult(kept, groups, true, if kept != [] then LastOf(kept) else if groups != [] then LastOf(groups) else "")
  }

  /** What one call of the service lists: one entry more than a page is asked for. */
  ghost function Listed(table: set<string>, prefix: string, delimiter: string, startAfter: string,
                        maxKeys: int): ListResult
  {
    var page := Page(table, prefix, delimiter, startAfter, Limit(maxKeys) + 1);
    Trimmed(KeysIn(page), GroupsIn(page), Limit(maxKeys))
  }

  /** For any delimiter: truncated exactly when there are more entries than fit on the page. */
  lemma TruncatedIff(table: set<string>, prefix: string, delimiter: string, startAfter: string, maxKeys: int)
    ensures var r := Listed(table, prefix, delimiter, startAfter, maxKeys);
      var all := Page(table, prefix, delimiter, startAfter, 0);
      && (r.truncated <==> |all| > Limit(maxKeys))
      && |r.objects| + |r.commonPrefixes| == if |all| > Limit(maxKeys) then Limit(maxKeys) else |all|
  {
    CountParts(Page(table, prefix, delimiter, startAfter, Limit(maxKeys) + 1));
  }

  lemma {:induction false} GroupsDistinct(items: seq<Item>)
    requires forall i, j :: 0 <= i < j < |items| ==> items[i] != items[j]
    ensures forall i, j :: 0 <= i < j < |GroupsIn(items)| ==> GroupsIn(items)[i] != GroupsIn(items)[j]
  {
    if items != [] {
      var front, last := items[..|items| - 1], items[|items| - 1];
      GroupsDistinct(front);
      CountParts(front);
      if last.Group? {
        assert last !in front;
        assert last.name !in GroupsIn(front);
      }
    }
  }

  /** A page shows matching keys and the groups of matching keys, no group twice. */
  lemma PageEntries(table: set<string>, prefix: string, delimiter: string, startAfter: string, maxKeys: int)
    ensures var r := Listed(table, prefix, delimiter, startAfter, maxKeys);
      && (forall k :: k in r.objects ==> k in Rows(table, prefix, startAfter))
      && (forall g :: g in r.commonPrefixes ==>
        exists k :: k in Rows(table, prefix, startAfter) && |prefix| <= |k| && ItemOf(prefix, delimiter, k) == Group(g))
      && (forall i, j :: 0 <= i < j < |r.commonPrefixes| ==> r.commonPrefixes[i] != r.commonPrefixes[j])
  {
    hide Rows, FoldedPrefix, KeysIn, GroupsIn, ItemOf, Items, Ordered;
    var page := Page(table, prefix, delimiter, startAfter, Limit(maxKeys) + 1);
    RowsLong(table, prefix, startAfter);
    ItemsAre(prefix, delimiter, Rows(table, prefix, startAfter));
    CountParts(page);
    GroupsDistinct(page);
    var rows := Rows(table, prefix, startAfter);
    assert forall x :: x in page ==> x in Items(prefix, delimiter, rows);
    forall g | g in Listed(table, prefix, delimiter, startAfter, maxKeys).commonPrefixes
      ensures exists k :: k in rows && |prefix| <= |k| && ItemOf(prefix, delimiter, k) == Group(g)
    {
      assert Group(g) in page;
      var k :| k in rows && ItemOf(prefix, delimiter, k) == Group(g);
    }
  }

  lemma PageBound(table: set<string>, prefix: string, delimiter: string, startAfter: string, maxKeys: nat)
    requires maxKeys > 0
    ensures |Page(table, prefix, delimiter, startAfter, maxKeys)| <= maxKeys
  {
  }

  lemma PageKeysListed(table: set<string>, prefix: string, delimiter: string, startAfter: string, maxKeys: int)
    ensures forall k :: k in Listed(table, prefix, delimiter, startAfter, maxKeys).objects ==> k in table
  {
    hide Listed;
    PageEntries(table, prefix, delimiter, startAfter, maxKeys);
    RowsAre(table, prefix, startAfter);
  }

  /** Without a delimiter a page is the next stretch of matching keys. */
  lemma PageOfKeys(table: set<string>, prefix: string, startAfter: string, maxKeys: int)
    ensures var r := Listed(table, prefix, "", startAfter, maxKeys);
      var rows := Rows(table, prefix, startAfter);
      var n := Limit(maxKeys);
      && r.commonPrefixes == []
      && r.objects == Cut(rows, n)
      && (r.truncated <==> |rows| > n)
      && r.next == if r.truncated then rows[n - 1] else ""
  {
    hide Page, Rows;
    PageWithoutDelimiter(table, prefix, startAfter, Limit(maxKeys) + 1);
  }

  lemma TokenAdvances(table: set<string>, prefix: string, startAfter: string, maxKeys: int)
    requires "" !in table && Listed(table, prefix, "", startAfter, maxKeys).truncated
    ensures var r := Listed(table, prefix, "", startAfter, maxKeys);
      && r.next != ""
      && Rows(table, prefix, startAfter) == r.objects + Rows(table, prefix, r.next)
      && |r.objects| == Limit(maxKeys)
  {
    hide Listed;
    PageOfKeys(table, prefix, startAfter, maxKeys);
    RowsContinue(table, prefix, startAfter, Limit(maxKeys));
    RowsAre(table, prefix, startAfter);
    var rows := Rows(table, prefix, startAfter);
    assert rows[Limit(maxKeys) - 1] in rows;
    assert rows == rows[..Limit(maxKeys)] + rows[Limit(maxKeys)..];
  }

  /** The pages a client sees that follows the tokens to the end. */
  ghost function Pages(table: set<string>, prefix: string, startAfter: string, maxKeys: int): seq<ListResult>
    requires "" !in table
    decreases |Rows(table, prefix, startAfter)|
  {
    var r := Listed(table, prefix, "", startAfter, maxKeys);
    if !r.truncated then [r]
    else
      TokenAdvances(table, prefix, startAfter, maxKeys);
      [r] + Pages(table, prefix, r.next, maxKeys)
  }

  function Flattened(pages: seq<ListResult>): seq<string> {
    if pages == [] then [] else pages[0].objects + Flattened(pages[1..])
  }

  /**
   Following the tokens lists every matching key exactly once, in order; every page but
   the last is full, and only the last one is not truncated.
   */
  lemma {:induction false} TokensListEverything(table: set<string>, prefix: string, startAfter: string, maxKeys: int)
    requires "" !in table
    ensures var pages := Pages(table, prefix, startAfter, maxKeys);
      && pages != []
      && Flattened(pages) == Rows(table, prefix, startAfter)
      && (forall i :: 0 <= i < |pages| - 1 ==> pages[i].truncated && |pages[i].objects| == Limit(maxKeys))
      && !pages[|pages| - 1].truncated && |pages[|pages| - 1].objects| <= Limit(maxKeys)
    decreases |Rows(table, prefix, startAfter)|
  {
    hide Listed, Rows;
    PageOfKeys(table, prefix, startAfter, maxKeys);
    var r := Listed(table, prefix, "", startAfter, maxKeys);
    if r.truncated {
      TokenAdvances(table, prefix, startAfter, maxKeys);
      TokensListEverything(table, prefix, r.next, maxKeys);
    } else {
      assert Flattened([r]) == r.objects + Flattened([]);
    }
  }
}
