/**
 Following continuation tokens of a listing with a delimiter: which entries a trimmed
 page and the listing after its token show together, which they show twice, and whether
 the token moves on at all.
 */
module DelimiterPages {
  import opened GoStrings
  import opened Listing

  /** Every matching key starts with the prefix letter by letter. */
  ghost predicate ExactPrefix(table: set<string>, prefix: string) {
    forall k :: k in table && FoldedPrefix(prefix, k) ==> prefix <= k
  }

  // ------------------------------------------------------------ order around a prefix

  /** A string that does not start with g lies on the same side of all strings that do. */
  lemma {:induction false} SameSide(g: string, k: string, x: string)
    requires g <= x && !(g <= k)
    ensures Less(k, x) <==> Less(k, g)
    ensures Less(x, k) <==> Less(g, k)
  {
    assert g != [];
    if k != [] && k[0] == g[0] {
      assert g[1..] <= x[1..];
      assert g == [g[0]] + g[1..] && k == [k[0]] + k[1..];
      SameSide(g[1..], k[1..], x[1..]);
    }
  }

  lemma {:induction false} PrefixFirst(g: string, x: string)
    requires g <= x
    ensures g == x || Less(g, x)
  {
    if g != [] {
      assert g[1..] <= x[1..];
      PrefixFirst(g[1..], x[1..]);
      if g[1..] == x[1..] {
        assert g == [g[0]] + g[1..] && x == [x[0]] + x[1..];
      }
    }
  }

  // ------------------------------------------------------------ groups

  /** The keys of a group are the matching keys that start with its name. */
  lemma GroupIsPrefix(prefix: string, delimiter: string, k: string, g: string)
    requires prefix <= k && ItemOf(prefix, delimiter, k) == Group(g)
    ensures prefix <= g <= k && g != "" && delimiter != ""
  {
    var rest := k[|prefix|..];
    var i := Index(rest, delimiter);
    assert k == prefix + rest;
    assert rest[..i + |delimiter|] <= rest;
  }

  /** The first occurrence is the same in every string that goes on alike up to its end. */
  lemma SameFirst(s: string, t: string, sub: string)
    requires Index(s, sub) >= 0
    requires var n := Index(s, sub) + |sub|; n <= |s| && n <= |t| && t[..n] == s[..n]
    ensures Index(t, sub) == Index(s, sub)
  {
    var i, j := Index(s, sub), Index(t, sub);
    var n := i + |sub|;
    assert t[i..n] == t[..n][i..n] == s[..n][i..n] == s[i..n];
    assert OccursAt(t, sub, i);
    var m := j + |sub|;
    assert t[j..m] == t[..n][j..m] == s[..n][j..m] == s[j..m];
    assert OccursAt(s, sub, j);
  }

  lemma SameGroup(prefix: string, delimiter: string, k: string, k': string, g: string)
    requires prefix <= k && prefix <= k' && ItemOf(prefix, delimiter, k) == Group(g) && g <= k'
    ensures ItemOf(prefix, delimiter, k') == Group(g)
  {
    hide Index;
    var rest, rest' := k[|prefix|..], k'[|prefix|..];
    var n := Index(rest, delimiter) + |delimiter|;
    assert g == prefix + rest[..n];
    assert rest'[..n] == k'[..|g|][|prefix|..] == rest[..n];
    SameFirst(rest, rest', delimiter);
  }

  // ------------------------------------------------------------ where entries begin

  /** A first run of entries comes from a first run of rows, and no later entry has a row in it. */
  lemma {:induction false} ItemsSplit(prefix: string, delimiter: string, rows: seq<string>, m: nat) returns (p: nat)
    requires forall k :: k in rows ==> |prefix| <= |k|
    requires m <= |Items(prefix, delimiter, rows)|
    ensures p <= |rows| && (forall k :: k in rows[..p] ==> |prefix| <= |k|)
    ensures Items(prefix, delimiter, rows[..p]) == Items(prefix, delimiter, rows)[..m]
  {
    hide ItemOf;
    if m == |Items(prefix, delimiter, rows)| {
      p := |rows|;
      assert rows[..p] == rows;
    } else {
      var front := rows[..|rows| - 1];
      assert forall k :: k in front ==> k in rows;
      p := ItemsSplit(prefix, delimiter, front, m);
      assert front[..p] == rows[..p];
    }
  }

  lemma RowOfEntry(prefix: string, delimiter: string, rows: seq<string>, x: Item) returns (i: nat)
    requires forall k :: k in rows ==> |prefix| <= |k|
    requires x in Items(prefix, delimiter, rows)
    ensures i < |rows| && rows[i] in rows && ItemOf(prefix, delimiter, rows[i]) == x
  {
    ItemsAre(prefix, delimiter, rows);
    var k :| k in rows && ItemOf(prefix, delimiter, k) == x;
    i :| 0 <= i < |rows| && rows[i] == k;
  }

  /** Rows of an entry come after the rows of every entry listed before it. */
  lemma LaterRows(prefix: string, delimiter: string, rows: seq<string>, m: nat, k: string) returns (p: nat)
    requires forall k :: k in rows ==> |prefix| <= |k|
    requires Ordered(rows) && m <= |Items(prefix, delimiter, rows)| && k in rows
    requires ItemOf(prefix, delimiter, k) !in Items(prefix, delimiter, rows)[..m]
    ensures p <= |rows| && (forall k :: k in rows[..p] ==> |prefix| <= |k|)
    ensures Items(prefix, delimiter, rows[..p]) == Items(prefix, delimiter, rows)[..m]
    ensures forall i :: 0 <= i < p ==> Less(rows[i], k)
  {
    p := ItemsSplit(prefix, delimiter, rows, m);
    ItemsAre(prefix, delimiter, rows[..p]);
    assert forall i :: 0 <= i < p ==> rows[..p][i] == rows[i] && rows[i] in rows[..p];
    var j :| 0 <= j < |rows| && rows[j] == k;
  }

  /** The cursor a page leaves when this is the last entry it shows. */
  function NameOf(x: Item): string {
    match x
    case Key(k) => k
    case Group(g) => g
  }

  /** An entry's name comes before every row of an entry first listed later. */
  lemma EntryBefore(prefix: string, delimiter: string, rows: seq<string>, m: nat, e: Item, k: string)
    requires Ordered(rows) && forall k :: k in rows ==> |prefix| <= |k|
    requires e.Key? || forall k :: k in rows ==> prefix <= k
    requires m <= |Items(prefix, delimiter, rows)| && e in Items(prefix, delimiter, rows)[..m]
    requires k in rows && ItemOf(prefix, delimiter, k) !in Items(prefix, delimiter, rows)[..m]
    ensures Less(NameOf(e), k)
  {
    var p := LaterRows(prefix, delimiter, rows, m, k);
    var i := RowOfEntry(prefix, delimiter, rows[..p], e);
    var a := rows[i];
    assert rows[..p][i] == a && Less(a, k) && a in rows;
    if e.Group? {
      GroupIsPrefix(prefix, delimiter, a, e.name);
      PrefixFirst(e.name, a);
      if e.name != a { LessTransitive(e.name, a, k); }
    }
  }

  /** A group lies entirely before or after a key outside it. */
  lemma GroupAfterKey(prefix: string, delimiter: string, k: string, x: string, g: string)
    requires prefix <= k && prefix <= x
    requires ItemOf(prefix, delimiter, x) == Group(g) && ItemOf(prefix, delimiter, k) != Group(g)
    ensures Less(k, x) <==> Less(k, g)
    ensures Less(x, k) <==> Less(g, k)
  {
    GroupIsPrefix(prefix, delimiter, x, g);
    assert !(g <= k) by {
      if g <= k { SameGroup(prefix, delimiter, x, k, g); }
    }
    SameSide(g, k, x);
  }

  /** Of two groups, all keys of the one come before the name of the other. */
  lemma GroupsApart(prefix: string, delimiter: string, a: string, b: string, g: string, h: string, k: string)
    requires prefix <= a && prefix <= b && prefix <= k && g != h && Less(a, b)
    requires ItemOf(prefix, delimiter, a) == Group(g) && ItemOf(prefix, delimiter, b) == Group(h)
    requires ItemOf(prefix, delimiter, k) == Group(g)
    ensures Less(k, h)
  {
    GroupAfterKey(prefix, delimiter, a, b, h);
    GroupIsPrefix(prefix, delimiter, a, g);
    GroupIsPrefix(prefix, delimiter, b, h);
    GroupIsPrefix(prefix, delimiter, k, g);
    assert !(g <= h) by {
      if g <= h { SameGroup(prefix, delimiter, a, b, g); }
    }
    SameSide(g, h, a);
    SameSide(g, h, k);
  }

  // ------------------------------------------------------------ keys and groups of a page

  /** The keys of a listing are in order. */
  lemma {:induction false} KeysOrdered(prefix: string, delimiter: string, rows: seq<string>)
    requires Ordered(rows) && forall k :: k in rows ==> |prefix| <= |k|
    ensures Ordered(KeysIn(Items(prefix, delimiter, rows)))
  {
    if rows != [] {
      var n := |rows| - 1;
      assert forall k :: k in rows[..n] ==> k in rows;
      KeysOrdered(prefix, delimiter, rows[..n]);
      KeysOrderedStep(prefix, delimiter, rows, n);
      assert rows[..n + 1] == rows;
    }
  }

  lemma KeysOrderedStep(prefix: string, delimiter: string, rows: seq<string>, n: nat)
    requires Ordered(rows) && n < |rows| && forall k :: k in rows ==> |prefix| <= |k|
    requires Ordered(KeysIn(Items(prefix, delimiter, rows[..n])))
    ensures Ordered(KeysIn(Items(prefix, delimiter, rows[..n + 1])))
  {
    hide ItemOf, Items, KeysIn, GroupsIn;
    ItemsStep(prefix, delimiter, rows, n);
    var before := Items(prefix, delimiter, rows[..n]);
    var x := ItemOf(prefix, delimiter, rows[n]);
    PartsStep(before, x);
    CountParts(before);
    forall k | k in KeysIn(before) ensures Less(k, rows[n]) {
      var i := RowOfEntry(prefix, delimiter, rows[..n], Key(k));
      assert rows[..n][i] == rows[i] == k;
    }
  }

  lemma {:induction false} OnlyKeys(items: seq<Item>)
    requires GroupsIn(items) == []
    ensures |KeysIn(items)| == |items| && forall i :: 0 <= i < |items| ==> items[i] == Key(KeysIn(items)[i])
  {
    if items != [] {
      OnlyKeys(items[..|items| - 1]);
    }
  }

  lemma {:induction false} OnlyGroups(items: seq<Item>)
    requires KeysIn(items) == []
    ensures |GroupsIn(items)| == |items| && forall i :: 0 <= i < |items| ==> items[i] == Group(GroupsIn(items)[i])
  {
    if items != [] {
      OnlyGroups(items[..|items| - 1]);
    }
  }

  /** A matching key beyond the cursor belongs to the entry. */
  ghost predicate Continues(table: set<string>, prefix: string, delimiter: string, cursor: string, x: Item) {
    exists k :: k in table && FoldedPrefix(prefix, k) && (cursor == "" || Less(cursor, k))
      && ItemOf(prefix, delimiter, k) == x
  }

  /** The entries beyond a cursor are those that have such a key. */
  lemma EntriesOf(table: set<string>, prefix: string, delimiter: string, cursor: string, x: Item)
    ensures x in Page(table, prefix, delimiter, cursor, 0) <==> Continues(table, prefix, delimiter, cursor, x)
  {
    hide ItemOf, Rows, Items, Less, FoldedPrefix;
    RowsAre(table, prefix, cursor);
    RowsLong(table, prefix, cursor);
    ItemsAre(prefix, delimiter, Rows(table, prefix, cursor));
  }

  lemma EntriesAfter(table: set<string>, prefix: string, delimiter: string, cursor: string, x: Item)
    requires ExactPrefix(table, prefix)
    ensures x in Page(table, prefix, delimiter, cursor, 0) <==>
      exists k :: k in table && prefix <= k && (cursor == "" || Less(cursor, k)) && ItemOf(prefix, delimiter, k) == x
  {
    RowsAre(table, prefix, cursor);
    ItemsAre(prefix, delimiter, Rows(table, prefix, cursor));
    assert forall k :: prefix <= k ==> FoldedPrefix(prefix, k);
  }

  // ------------------------------------------------------------ what a truncated page covers

  predicate Shown(r: ListResult, x: Item) {
    match x
    case Key(k) => k in r.objects
    case Group(g) => g in r.commonPrefixes
  }

  /** Every entry is on the page or in the listing that starts at its token. */
  ghost predicate Covers(table: set<string>, prefix: string, delimiter: string, startAfter: string, maxKeys: int) {
    var r := Listed(table, prefix, delimiter, startAfter, maxKeys);
    forall x :: x in Page(table, prefix, delimiter, startAfter, 0) ==>
      Shown(r, x) || x in Page(table, prefix, delimiter, r.next, 0)
  }

  /** Some entry is on the page and again in the listing that starts at its token. */
  ghost predicate Repeats(table: set<string>, prefix: string, delimiter: string, startAfter: string, maxKeys: int) {
    var r := Listed(table, prefix, delimiter, startAfter, maxKeys);
    exists x :: Shown(r, x) && x in Page(table, prefix, delimiter, r.next, 0)
  }

  /** The rows and entries behind a truncated page: it was cut from one entry more. */
  lemma TruncatedPage(table: set<string>, prefix: string, delimiter: string, startAfter: string, maxKeys: int)
    requires Listed(table, prefix, delimiter, startAfter, maxKeys).truncated
    ensures
      var rows := Rows(table, prefix, startAfter);
      var n := Limit(maxKeys);
      && Ordered(rows)
      && (forall k :: k in rows <==> k in table && FoldedPrefix(prefix, k) && (startAfter == "" || Less(startAfter, k)))
      && (forall k :: k in rows ==> |prefix| <= |k|)
      && Page(table, prefix, delimiter, startAfter, 0) == Items(prefix, delimiter, rows)
      && n + 1 <= |Items(prefix, delimiter, rows)|
      && Page(table, prefix, delimiter, startAfter, n + 1) == Items(prefix, delimiter, rows)[..n + 1]
      && n > 0
  {
    hide KeysIn, GroupsIn;
    RowsAre(table, prefix, startAfter);
    CountParts(Page(table, prefix, delimiter, startAfter, Limit(maxKeys) + 1));
  }

  /** Entries first listed after the one that gives the token come after the token. */
  lemma CoveredBeyond(table: set<string>, prefix: string, delimiter: string, startAfter: string, m: nat, e: Item,
                      x: Item)
    requires e.Key? || ExactPrefix(table, prefix)
    requires var all := Page(table, prefix, delimiter, startAfter, 0);
      m <= |all| && e in all[..m] && x in all && x !in all[..m]
    ensures x in Page(table, prefix, delimiter, NameOf(e), 0)
  {
    hide Rows, Items, KeysIn, GroupsIn, ItemOf, Ordered;
    var rows := Rows(table, prefix, startAfter);
    RowsAre(table, prefix, startAfter);
    assert forall k :: k in rows ==> |prefix| <= |k|;
    assert e.Key? || forall k :: k in rows ==> prefix <= k;
    assert Page(table, prefix, delimiter, startAfter, 0) == Items(prefix, delimiter, rows);
    var i := RowOfEntry(prefix, delimiter, rows, x);
    EntryBefore(prefix, delimiter, rows, m, e, rows[i]);
    EntriesOf(table, prefix, delimiter, NameOf(e), x);
  }

  /** A group is listed again after a key outside it exactly when its name comes after the key. */
  lemma GroupContinues(table: set<string>, prefix: string, delimiter: string, startAfter: string, k: string, g: string)
    requires ExactPrefix(table, prefix) && k != ""
    requires Key(k) in Page(table, prefix, delimiter, startAfter, 0)
    requires Group(g) in Page(table, prefix, delimiter, startAfter, 0)
    ensures Continues(table, prefix, delimiter, k, Group(g)) <==> Less(k, g)
  {
    hide Page, ItemOf, Continues;
    EntriesOf(table, prefix, delimiter, k, Group(g));
    EntriesAfter(table, prefix, delimiter, startAfter, Key(k));
    EntriesAfter(table, prefix, delimiter, startAfter, Group(g));
    EntriesAfter(table, prefix, delimiter, k, Group(g));
    forall x | x in table && prefix <= x && ItemOf(prefix, delimiter, x) == Group(g)
      ensures Less(k, x) <==> Less(k, g)
    {
      GroupAfterKey(prefix, delimiter, k, x, g);
    }
  }

  /** The key entry of a row is the row itself, so its own listing never shows it again. */
  lemma KeyNotAfter(table: set<string>, prefix: string, delimiter: string, cursor: string, k: string)
    requires cursor != "" && !Less(cursor, k)
    ensures Key(k) !in Page(table, prefix, delimiter, cursor, 0)
  {
    EntriesOf(table, prefix, delimiter, cursor, Key(k));
  }

  // ------------------------------------------------------------ by what the page shows

  /** A page that begins as a run of keys only: they are all it shows, and the last one is the token. */
  lemma AllKeys(table: set<string>, prefix: string, delimiter: string, startAfter: string, maxKeys: int)
    requires "" !in table && Listed(table, prefix, delimiter, startAfter, maxKeys).truncated
    requires GroupsIn(Page(table, prefix, delimiter, startAfter, Limit(maxKeys) + 1)) == []
    ensures Covers(table, prefix, delimiter, startAfter, maxKeys)
      && !Repeats(table, prefix, delimiter, startAfter, maxKeys)
  {
    hide Rows, Items, KeysIn, GroupsIn, ItemOf;
    var n := Limit(maxKeys);
    var rows := Rows(table, prefix, startAfter);
    TruncatedPage(table, prefix, delimiter, startAfter, maxKeys);
    var all := Items(prefix, delimiter, rows);
    var page := all[..n + 1];
    OnlyKeys(page);
    var keys := KeysIn(page);
    var r := Listed(table, prefix, delimiter, startAfter, maxKeys);
    assert r.objects == keys[..n] && r.commonPrefixes == [] && r.next == keys[n - 1];
    assert all[n - 1] == page[n - 1] == Key(r.next) && all[n - 1] in all[..n];
    forall x | x in all ensures Shown(r, x) || x in Page(table, prefix, delimiter, r.next, 0) {
      if x in all[..n] {
        var i :| 0 <= i < n && all[..n][i] == x;
        assert page[i] == x && keys[..n][i] == keys[i];
      } else {
        CoveredBeyond(table, prefix, delimiter, startAfter, n, Key(r.next), x);
      }
    }
    KeysNotAgain(table, prefix, delimiter, startAfter, n + 1, n, r.next);
  }

  /** None of the first keys of a listing comes after the last of them. */
  lemma KeysNotAgain(table: set<string>, prefix: string, delimiter: string, startAfter: string, m: nat, n: nat,
                     next: string)
    requires "" !in table && m <= |Page(table, prefix, delimiter, startAfter, 0)|
    requires var keys := KeysIn(Page(table, prefix, delimiter, startAfter, 0)[..m]);
      0 < n <= |keys| && next == keys[n - 1]
    ensures next != "" && Key(next) in Page(table, prefix, delimiter, startAfter, 0)
    ensures forall k :: k in KeysIn(Page(table, prefix, delimiter, startAfter, 0)[..m])[..n] ==>
      Key(k) !in Page(table, prefix, delimiter, next, 0)
  {
    hide Items, KeysIn, GroupsIn, ItemOf;
    var rows := Rows(table, prefix, startAfter);
    RowsAre(table, prefix, startAfter);
    var all := Items(prefix, delimiter, rows);
    var p := ItemsSplit(prefix, delimiter, rows, m);
    KeysOrdered(prefix, delimiter, rows[..p]);
    CountParts(all[..m]);
    var keys := KeysIn(all[..m]);
    assert next in keys && Key(next) in all[..m];
    EntriesOf(table, prefix, delimiter, startAfter, Key(next));
    forall k | k in keys[..n] ensures Key(k) !in Page(table, prefix, delimiter, next, 0) {
      var i :| 0 <= i < n && keys[..n][i] == k;
      assert keys[i] == k;
      if i < n - 1 { LessAsymmetric(keys[i], keys[n - 1]); } else { LessIrreflexive(next); }
      KeyNotAfter(table, prefix, delimiter, next, k);
    }
  }

  /**
   A page with a key and with groups shows all groups but the last, and the last key is the
   token: what comes before that key is not listed again.
   */
  lemma KeysAndGroups(table: set<string>, prefix: string, delimiter: string, startAfter: string, maxKeys: int)
    requires "" !in table && Listed(table, prefix, delimiter, startAfter, maxKeys).truncated
    requires var page := Page(table, prefix, delimiter, startAfter, Limit(maxKeys) + 1);
      KeysIn(page) != [] && GroupsIn(page) != []
    ensures
      var page := Page(table, prefix, delimiter, startAfter, Limit(maxKeys) + 1);
      var r := Listed(table, prefix, delimiter, startAfter, maxKeys);
      && r.objects == KeysIn(page) && r.next == LastOf(KeysIn(page))
      && (Covers(table, prefix, delimiter, startAfter, maxKeys) <==>
        Continues(table, prefix, delimiter, r.next, Group(LastOf(GroupsIn(page)))))
      && (Repeats(table, prefix, delimiter, startAfter, maxKeys) <==>
        (exists g :: g in r.commonPrefixes && Continues(table, prefix, delimiter, r.next, Group(g))))
  {
    hide Rows, Items, KeysIn, GroupsIn, ItemOf, Covers, Repeats, Continues;
    var n := Limit(maxKeys);
    var all := Page(table, prefix, delimiter, startAfter, 0);
    TruncatedPage(table, prefix, delimiter, startAfter, maxKeys);
    var page := all[..n + 1];
    CountParts(page);
    var keys, groups := KeysIn(page), GroupsIn(page);
    var r := Listed(table, prefix, delimiter, startAfter, maxKeys);
    assert r.objects == keys && r.commonPrefixes == groups[..|groups| - 1] && r.next == LastOf(keys);
    KeysNotAgain(table, prefix, delimiter, startAfter, n + 1, |keys|, r.next);
    assert keys[..|keys|] == keys;
    forall g {:trigger Group(g)}
      ensures Group(g) in Page(table, prefix, delimiter, r.next, 0) <==>
        Continues(table, prefix, delimiter, r.next, Group(g))
    {
      EntriesOf(table, prefix, delimiter, r.next, Group(g));
    }
    MixedCovers(table, prefix, delimiter, startAfter, maxKeys);
    MixedRepeats(table, prefix, delimiter, startAfter, maxKeys);
  }

  lemma MixedCovers(table: set<string>, prefix: string, delimiter: string, startAfter: string, maxKeys: int)
    requires Listed(table, prefix, delimiter, startAfter, maxKeys).truncated
    requires var page := Page(table, prefix, delimiter, startAfter, Limit(maxKeys) + 1);
      var r := Listed(table, prefix, delimiter, startAfter, maxKeys);
      && KeysIn(page) != [] && GroupsIn(page) != []
      && r.objects == KeysIn(page) && r.next == LastOf(KeysIn(page))
      && r.commonPrefixes == GroupsIn(page)[..|GroupsIn(page)| - 1]
    ensures
      var page := Page(table, prefix, delimiter, startAfter, Limit(maxKeys) + 1);
      var r := Listed(table, prefix, delimiter, startAfter, maxKeys);
      Covers(table, prefix, delimiter, startAfter, maxKeys) <==>
        Group(LastOf(GroupsIn(page))) in Page(table, prefix, delimiter, r.next, 0)
  {
    hide Rows, Items, KeysIn, GroupsIn, ItemOf, Listed;
    var n := Limit(maxKeys);
    var all := Page(table, prefix, delimiter, startAfter, 0);
    TruncatedPage(table, prefix, delimiter, startAfter, maxKeys);
    var page := all[..n + 1];
    CountParts(page);
    var r := Listed(table, prefix, delimiter, startAfter, maxKeys);
    var groups, trimmed := GroupsIn(page), LastOf(GroupsIn(page));
    assert groups == r.commonPrefixes + [trimmed];
    assert trimmed in groups && r.next in r.objects;
    ItemsAre(prefix, delimiter, Rows(table, prefix, startAfter));
    GroupsDistinct(page);
    assert trimmed !in r.commonPrefixes;
    assert !Shown(r, Group(trimmed)) && Group(trimmed) in page && Group(trimmed) in all;
    assert Key(r.next) in page;
    if Group(trimmed) in Page(table, prefix, delimiter, r.next, 0) {
      forall x | x in all ensures Shown(r, x) || x in Page(table, prefix, delimiter, r.next, 0) {
        if x in page {
          assert x.Group? ==> x.name in r.commonPrefixes || x.name == trimmed;
        } else {
          CoveredBeyond(table, prefix, delimiter, startAfter, n + 1, Key(r.next), x);
        }
      }
    }
  }

  lemma MixedRepeats(table: set<string>, prefix: string, delimiter: string, startAfter: string, maxKeys: int)
    requires var page := Page(table, prefix, delimiter, startAfter, Limit(maxKeys) + 1);
      var r := Listed(table, prefix, delimiter, startAfter, maxKeys);
      && GroupsIn(page) != [] && r.commonPrefixes == GroupsIn(page)[..|GroupsIn(page)| - 1]
      && (forall k :: k in r.objects ==> Key(k) !in Page(table, prefix, delimiter, r.next, 0))
    ensures
      var r := Listed(table, prefix, delimiter, startAfter, maxKeys);
      Repeats(table, prefix, delimiter, startAfter, maxKeys) <==>
        exists g :: g in r.commonPrefixes && Group(g) in Page(table, prefix, delimiter, r.next, 0)
  {
    hide Listed, Page, KeysIn, GroupsIn;
    var r := Listed(table, prefix, delimiter, startAfter, maxKeys);
    var again := Page(table, prefix, delimiter, r.next, 0);
    if x :| Shown(r, x) && x in again {
      assert x.Group? && Group(x.name) == x;
    }
    if g :| g in r.commonPrefixes && Group(g) in again {
      assert Shown(r, Group(g));
    }
  }

  /** A page of groups only: the last group shown is the token, and only it can be listed again. */
  lemma AllGroups(table: set<string>, prefix: string, delimiter: string, startAfter: string, maxKeys: int)
    requires Listed(table, prefix, delimiter, startAfter, maxKeys).truncated
    requires KeysIn(Page(table, prefix, delimiter, startAfter, Limit(maxKeys) + 1)) == []
    ensures
      var all := Page(table, prefix, delimiter, startAfter, 0);
      var n := Limit(maxKeys);
      var r := Listed(table, prefix, delimiter, startAfter, maxKeys);
      && |all| > n > 0 && r.objects == [] && |r.commonPrefixes| == n && r.next == r.commonPrefixes[n - 1]
      && (forall i :: 0 <= i < n ==> all[i] == Group(r.commonPrefixes[i])) && all[n].Group?
  {
    hide Rows, Items, KeysIn, GroupsIn, ItemOf;
    var n := Limit(maxKeys);
    var all := Page(table, prefix, delimiter, startAfter, 0);
    TruncatedPage(table, prefix, delimiter, startAfter, maxKeys);
    var page := all[..n + 1];
    OnlyGroups(page);
    var groups := GroupsIn(page);
    assert forall i :: 0 <= i <= n ==> all[i] == page[i] == Group(groups[i]);
  }

  lemma AllGroupsCovers(table: set<string>, prefix: string, delimiter: string, startAfter: string, maxKeys: int)
    requires ExactPrefix(table, prefix) && Listed(table, prefix, delimiter, startAfter, maxKeys).truncated
    requires KeysIn(Page(table, prefix, delimiter, startAfter, Limit(maxKeys) + 1)) == []
    ensures Covers(table, prefix, delimiter, startAfter, maxKeys)
  {
    hide Page, Listed, KeysIn;
    AllGroups(table, prefix, delimiter, startAfter, maxKeys);
    var n := Limit(maxKeys);
    var all := Page(table, prefix, delimiter, startAfter, 0);
    var r := Listed(table, prefix, delimiter, startAfter, maxKeys);
    assert all[n - 1] in all[..n];
    forall x | x in all ensures Shown(r, x) || x in Page(table, prefix, delimiter, r.next, 0) {
      if x in all[..n] {
        var i :| 0 <= i < n && all[..n][i] == x;
        assert all[i] == x;
      } else {
        CoveredBeyond(table, prefix, delimiter, startAfter, n, Group(r.next), x);
      }
    }
  }

  /** Groups shown before the last one are behind its name. */
  lemma EarlierGroupsBehind(table: set<string>, prefix: string, delimiter: string, startAfter: string, i: nat, j: nat)
    requires ExactPrefix(table, prefix)
    requires var all := Page(table, prefix, delimiter, startAfter, 0); i < j < |all| && all[i].Group? && all[j].Group?
    ensures
      var all := Page(table, prefix, delimiter, startAfter, 0);
      all[j].name != "" && all[i] !in Page(table, prefix, delimiter, all[j].name, 0)
  {
    hide ItemOf, Items, Rows;
    var rows := Rows(table, prefix, startAfter);
    RowsAre(table, prefix, startAfter);
    assert forall k :: k in rows ==> prefix <= k && |prefix| <= |k|;
    var all := Items(prefix, delimiter, rows);
    ItemsAre(prefix, delimiter, rows);
    var g, h := all[i].name, all[j].name;
    assert all[i] in all && all[j] in all && all[i] in all[..j] && all[j] !in all[..j];
    var y := RowOfEntry(prefix, delimiter, rows, all[j]);
    var b := rows[y];
    var p := LaterRows(prefix, delimiter, rows, j, b);
    var x := RowOfEntry(prefix, delimiter, rows[..p], all[i]);
    var a := rows[x];
    assert rows[..p][x] == a && a in rows;
    GroupIsPrefix(prefix, delimiter, b, h);
    forall k | k in table && prefix <= k && ItemOf(prefix, delimiter, k) == Group(g)
      ensures !Less(h, k)
    {
      GroupsApart(prefix, delimiter, a, b, g, h, k);
      LessAsymmetric(k, h);
    }
    EntriesAfter(table, prefix, delimiter, h, Group(g));
  }

  /** The group gives a key other than its own name. */
  ghost predicate HasMembers(table: set<string>, prefix: string, delimiter: string, g: string) {
    exists k :: k in table && prefix <= k && ItemOf(prefix, delimiter, k) == Group(g) && k != g
  }

  lemma TokenGroupAgain(table: set<string>, prefix: string, delimiter: string, g: string)
    requires ExactPrefix(table, prefix) && g != ""
    ensures Group(g) in Page(table, prefix, delimiter, g, 0) <==> HasMembers(table, prefix, delimiter, g)
  {
    hide Page, ItemOf;
    EntriesAfter(table, prefix, delimiter, g, Group(g));
    LessIrreflexive(g);
    forall k | k in table && prefix <= k && ItemOf(prefix, delimiter, k) == Group(g)
      ensures Less(g, k) <==> k != g
    {
      GroupIsPrefix(prefix, delimiter, k, g);
      PrefixFirst(g, k);
    }
  }

  lemma AllGroupsRepeats(table: set<string>, prefix: string, delimiter: string, startAfter: string, maxKeys: int)
    requires ExactPrefix(table, prefix) && Listed(table, prefix, delimiter, startAfter, maxKeys).truncated
    requires KeysIn(Page(table, prefix, delimiter, startAfter, Limit(maxKeys) + 1)) == []
    ensures var r := Listed(table, prefix, delimiter, startAfter, maxKeys);
      Repeats(table, prefix, delimiter, startAfter, maxKeys) <==> HasMembers(table, prefix, delimiter, r.next)
  {
    hide Page, Listed, KeysIn, HasMembers;
    AllGroups(table, prefix, delimiter, startAfter, maxKeys);
    var n := Limit(maxKeys);
    var all := Page(table, prefix, delimiter, startAfter, 0);
    var r := Listed(table, prefix, delimiter, startAfter, maxKeys);
    assert all[n - 1] in all;
    TokenNonEmpty(table, prefix, delimiter, startAfter, r.next);
    TokenGroupAgain(table, prefix, delimiter, r.next);
    forall i | 0 <= i < n - 1 ensures Group(r.commonPrefixes[i]) !in Page(table, prefix, delimiter, r.next, 0) {
      EarlierGroupsBehind(table, prefix, delimiter, startAfter, i, n - 1);
    }
    assert Shown(r, Group(r.next));
    forall x | Shown(r, x) && x in Page(table, prefix, delimiter, r.next, 0) ensures x == Group(r.next) {
      var i :| 0 <= i < n && r.commonPrefixes[i] == x.name;
    }
  }

  lemma TokenNonEmpty(table: set<string>, prefix: string, delimiter: string, startAfter: string, g: string)
    requires ExactPrefix(table, prefix) && Group(g) in Page(table, prefix, delimiter, startAfter, 0)
    ensures g != ""
  {
    EntriesAfter(table, prefix, delimiter, startAfter, Group(g));
    var k :| k in table && prefix <= k && ItemOf(prefix, delimiter, k) == Group(g);
    GroupIsPrefix(prefix, delimiter, k, g);
  }

  // ------------------------------------------------------------ what a continuation does

  /** A group has been trimmed that does not go on after the last key shown. */
  ghost predicate TrimsBehind(table: set<string>, prefix: string, delimiter: string, page: seq<Item>) {
    && KeysIn(page) != [] && GroupsIn(page) != []
    && !Continues(table, prefix, delimiter, LastOf(KeysIn(page)), Group(LastOf(GroupsIn(page))))
  }

  /**
   If a key is shown, no group has been trimmed behind it; if not, all entries after the
   page go on after the token, the name of its last group.
   */
  ghost predicate GoesOn(table: set<string>, prefix: string, delimiter: string, startAfter: string, maxKeys: int) {
    var r := Listed(table, prefix, delimiter, startAfter, maxKeys);
    if r.objects != [] then
      !TrimsBehind(table, prefix, delimiter, Page(table, prefix, delimiter, startAfter, Limit(maxKeys) + 1))
    else
      var all := Page(table, prefix, delimiter, startAfter, 0);
      forall i :: Limit(maxKeys) <= i < |all| ==> Continues(table, prefix, delimiter, r.next, all[i])
  }

  /** A truncated page and the listing after its token show every entry exactly in these cases. */
  lemma ContinuationCoversIff(table: set<string>, prefix: string, delimiter: string, startAfter: string, maxKeys: int)
    requires "" !in table && Listed(table, prefix, delimiter, startAfter, maxKeys).truncated
    ensures Covers(table, prefix, delimiter, startAfter, maxKeys) <==>
      GoesOn(table, prefix, delimiter, startAfter, maxKeys)
  {
    hide Page, Listed, KeysIn, GroupsIn, Covers, Repeats, Continues;
    var page := Page(table, prefix, delimiter, startAfter, Limit(maxKeys) + 1);
    if KeysIn(page) != [] { KeyTokenAdvances(table, prefix, delimiter, startAfter, maxKeys); }
    if KeysIn(page) == [] {
      GroupPageCoversIff(table, prefix, delimiter, startAfter, maxKeys);
    } else if GroupsIn(page) == [] {
      AllKeys(table, prefix, delimiter, startAfter, maxKeys);
    } else {
      KeysAndGroups(table, prefix, delimiter, startAfter, maxKeys);
    }
  }

  lemma GroupPageCoversIff(table: set<string>, prefix: string, delimiter: string, startAfter: string, maxKeys: int)
    requires Listed(table, prefix, delimiter, startAfter, maxKeys).truncated
    requires KeysIn(Page(table, prefix, delimiter, startAfter, Limit(maxKeys) + 1)) == []
    ensures Covers(table, prefix, delimiter, startAfter, maxKeys) <==>
      GoesOn(table, prefix, delimiter, startAfter, maxKeys)
  {
    hide Page, Listed, KeysIn, GroupsIn, Continues;
    AllGroups(table, prefix, delimiter, startAfter, maxKeys);
    var n := Limit(maxKeys);
    var all := Page(table, prefix, delimiter, startAfter, 0);
    var r := Listed(table, prefix, delimiter, startAfter, maxKeys);
    forall i | 0 <= i < |all|
      ensures all[i] in Page(table, prefix, delimiter, r.next, 0) <==>
        Continues(table, prefix, delimiter, r.next, all[i])
      ensures Shown(r, all[i]) <==> i < n
    {
      EntriesOf(table, prefix, delimiter, r.next, all[i]);
      ShownFirst(table, prefix, delimiter, startAfter, maxKeys, i);
    }
  }

  /** A page of groups shows the first entries and no others. */
  lemma ShownFirst(table: set<string>, prefix: string, delimiter: string, startAfter: string, maxKeys: int, i: nat)
    requires Listed(table, prefix, delimiter, startAfter, maxKeys).truncated
    requires KeysIn(Page(table, prefix, delimiter, startAfter, Limit(maxKeys) + 1)) == []
    requires i < |Page(table, prefix, delimiter, startAfter, 0)|
    ensures var all := Page(table, prefix, delimiter, startAfter, 0);
      Shown(Listed(table, prefix, delimiter, startAfter, maxKeys), all[i]) <==> i < Limit(maxKeys)
  {
    hide Listed, KeysIn, GroupsIn, Rows, Items;
    AllGroups(table, prefix, delimiter, startAfter, maxKeys);
    RowsLong(table, prefix, startAfter);
    ItemsAre(prefix, delimiter, Rows(table, prefix, startAfter));
    var all := Page(table, prefix, delimiter, startAfter, 0);
    var r := Listed(table, prefix, delimiter, startAfter, maxKeys);
    assert forall j :: 0 <= j < |all| && j != i ==> all[j] != all[i];
    if i < Limit(maxKeys) {
      assert r.commonPrefixes[i] in r.commonPrefixes;
    }
  }

  /** It shows something twice exactly when a group on it goes on after the token. */
  lemma ContinuationRepeatsIff(table: set<string>, prefix: string, delimiter: string, startAfter: string, maxKeys: int)
    requires "" !in table && Listed(table, prefix, delimiter, startAfter, maxKeys).truncated
    ensures var r := Listed(table, prefix, delimiter, startAfter, maxKeys);
      Repeats(table, prefix, delimiter, startAfter, maxKeys) <==>
        exists g :: g in r.commonPrefixes && Continues(table, prefix, delimiter, r.next, Group(g))
  {
    hide Page, Listed, KeysIn, GroupsIn, Covers, Continues, Repeats;
    var page := Page(table, prefix, delimiter, startAfter, Limit(maxKeys) + 1);
    var r := Listed(table, prefix, delimiter, startAfter, maxKeys);
    if KeysIn(page) == [] {
      AllGroups(table, prefix, delimiter, startAfter, maxKeys);
      GroupPageRepeatsIff(table, prefix, delimiter, startAfter, maxKeys);
    } else if GroupsIn(page) == [] {
      AllKeys(table, prefix, delimiter, startAfter, maxKeys);
      NoGroupShown(table, prefix, delimiter, startAfter, maxKeys);
    } else {
      KeysAndGroups(table, prefix, delimiter, startAfter, maxKeys);
    }
  }

  lemma NoGroupShown(table: set<string>, prefix: string, delimiter: string, startAfter: string, maxKeys: int)
    requires GroupsIn(Page(table, prefix, delimiter, startAfter, Limit(maxKeys) + 1)) == []
    ensures Listed(table, prefix, delimiter, startAfter, maxKeys).commonPrefixes == []
  {
  }

  lemma GroupPageRepeatsIff(table: set<string>, prefix: string, delimiter: string, startAfter: string, maxKeys: int)
    requires Listed(table, prefix, delimiter, startAfter, maxKeys).objects == []
    ensures var r := Listed(table, prefix, delimiter, startAfter, maxKeys);
      Repeats(table, prefix, delimiter, startAfter, maxKeys) <==>
        exists g :: g in r.commonPrefixes && Continues(table, prefix, delimiter, r.next, Group(g))
  {
    hide Page, Listed, Continues;
    var r := Listed(table, prefix, delimiter, startAfter, maxKeys);
    forall g {:trigger Group(g)}
      ensures Group(g) in Page(table, prefix, delimiter, r.next, 0) <==>
        Continues(table, prefix, delimiter, r.next, Group(g))
    {
      EntriesOf(table, prefix, delimiter, r.next, Group(g));
    }
    if x :| Shown(r, x) && x in Page(table, prefix, delimiter, r.next, 0) {
      assert x == Group(x.name);
    }
    if g :| g in r.commonPrefixes && Continues(table, prefix, delimiter, r.next, Group(g)) {
      assert Shown(r, Group(g));
    }
  }

  /**
   Where all matching keys start with the prefix letter by letter: whether a group goes on
   after a key is told by its name, a page of groups only loses nothing, and it repeats a
   group exactly when the last one has a key other than its own name.
   */
  lemma ExactContinuation(table: set<string>, prefix: string, delimiter: string, startAfter: string, maxKeys: int)
    requires ExactPrefix(table, prefix) && "" !in table
      && Listed(table, prefix, delimiter, startAfter, maxKeys).truncated
    ensures
      var page := Page(table, prefix, delimiter, startAfter, Limit(maxKeys) + 1);
      Covers(table, prefix, delimiter, startAfter, maxKeys) <==>
        KeysIn(page) == [] || GroupsIn(page) == [] || Less(LastOf(KeysIn(page)), LastOf(GroupsIn(page)))
    ensures
      var r := Listed(table, prefix, delimiter, startAfter, maxKeys);
      Repeats(table, prefix, delimiter, startAfter, maxKeys) <==>
        if r.objects == [] then HasMembers(table, prefix, delimiter, r.next)
        else exists g :: g in r.commonPrefixes && Less(LastOf(r.objects), g)
  {
    hide Page, Listed, KeysIn, GroupsIn, Covers, Repeats, HasMembers, Continues;
    var page := Page(table, prefix, delimiter, startAfter, Limit(maxKeys) + 1);
    var r := Listed(table, prefix, delimiter, startAfter, maxKeys);
    if KeysIn(page) == [] {
      AllGroups(table, prefix, delimiter, startAfter, maxKeys);
      AllGroupsCovers(table, prefix, delimiter, startAfter, maxKeys);
      AllGroupsRepeats(table, prefix, delimiter, startAfter, maxKeys);
    } else if GroupsIn(page) == [] {
      AllKeys(table, prefix, delimiter, startAfter, maxKeys);
      NoGroupShown(table, prefix, delimiter, startAfter, maxKeys);
      KeyTokenAdvances(table, prefix, delimiter, startAfter, maxKeys);
    } else {
      KeysAndGroups(table, prefix, delimiter, startAfter, maxKeys);
      KeyTokenAdvances(table, prefix, delimiter, startAfter, maxKeys);
      KeyPageGroups(table, prefix, delimiter, startAfter, maxKeys);
    }
  }

  lemma KeyPageGroups(table: set<string>, prefix: string, delimiter: string, startAfter: string, maxKeys: int)
    requires ExactPrefix(table, prefix) && "" !in table
      && Listed(table, prefix, delimiter, startAfter, maxKeys).truncated
    requires KeysIn(Page(table, prefix, delimiter, startAfter, Limit(maxKeys) + 1)) != []
    ensures var r := Listed(table, prefix, delimiter, startAfter, maxKeys);
      var groups := GroupsIn(Page(table, prefix, delimiter, startAfter, Limit(maxKeys) + 1));
      && (forall g :: g in r.commonPrefixes ==> g in groups)
      && forall g :: g in groups ==> (Continues(table, prefix, delimiter, r.next, Group(g)) <==> Less(r.next, g))
  {
    hide Rows, Items, KeysIn, GroupsIn, ItemOf, Continues;
    var page := Page(table, prefix, delimiter, startAfter, Limit(maxKeys) + 1);
    var r := Listed(table, prefix, delimiter, startAfter, maxKeys);
    CountParts(page);
    KeyTokenAdvances(table, prefix, delimiter, startAfter, maxKeys);
    assert r.next in KeysIn(page) && Key(r.next) in page;
    assert forall x :: x in page ==> x in Page(table, prefix, delimiter, startAfter, 0);
    forall g | g in GroupsIn(page)
      ensures Continues(table, prefix, delimiter, r.next, Group(g)) <==> Less(r.next, g)
    {
      GroupContinues(table, prefix, delimiter, startAfter, r.next, g);
    }
  }

  lemma KeyTokenAdvances(table: set<string>, prefix: string, delimiter: string, startAfter: string, maxKeys: int)
    requires "" !in table
      && Listed(table, prefix, delimiter, startAfter, maxKeys).truncated
    requires KeysIn(Page(table, prefix, delimiter, startAfter, Limit(maxKeys) + 1)) != []
    ensures var r := Listed(table, prefix, delimiter, startAfter, maxKeys);
      r.objects != [] && r.next == LastOf(r.objects) && Less(startAfter, r.next)
  {
    hide KeysIn, GroupsIn, Rows, Items;
    var r := Listed(table, prefix, delimiter, startAfter, maxKeys);
    PageEntries(table, prefix, delimiter, startAfter, maxKeys);
    RowsAre(table, prefix, startAfter);
    assert LastOf(r.objects) in r.objects;
  }

  /**
   The token moves past the one it was asked with, unless the page holds one entry only,
   the listing begins with two groups, and the old token already lies within the first.
   */
  lemma TokenAdvancesIff(table: set<string>, prefix: string, delimiter: string, startAfter: string, maxKeys: int)
    requires "" !in table && Listed(table, prefix, delimiter, startAfter, maxKeys).truncated
    requires Listed(table, prefix, delimiter, startAfter, maxKeys).objects == [] ==> ExactPrefix(table, prefix)
    ensures
      var r := Listed(table, prefix, delimiter, startAfter, maxKeys);
      var all := Page(table, prefix, delimiter, startAfter, 0);
      && |all| >= 2
      && (Less(startAfter, r.next) <==>
        !(Limit(maxKeys) == 1 && all[0].Group? && all[1].Group? && all[0].name <= startAfter))
  {
    hide Page, Listed, KeysIn, GroupsIn;
    var page := Page(table, prefix, delimiter, startAfter, Limit(maxKeys) + 1);
    var all := Page(table, prefix, delimiter, startAfter, 0);
    TruncatedPage(table, prefix, delimiter, startAfter, maxKeys);
    if KeysIn(page) == [] {
      AllGroups(table, prefix, delimiter, startAfter, maxKeys);
      GroupTokenAdvances(table, prefix, delimiter, startAfter, Limit(maxKeys) - 1);
    } else {
      KeyTokenAdvances(table, prefix, delimiter, startAfter, maxKeys);
      TwoGroups(page);
    }
  }

  lemma TwoGroups(page: seq<Item>)
    ensures |page| == 2 && page[0].Group? && page[1].Group? ==> KeysIn(page) == []
  {
    CountParts(page);
    assert |page| == 2 ==> page == [page[0], page[1]];
    assert KeysIn(page) != [] ==> KeysIn(page)[0] in KeysIn(page);
  }

  /** The j-th entry, a group among groups, ahead of the cursor or around it. */
  lemma GroupTokenAdvances(table: set<string>, prefix: string, delimiter: string, startAfter: string, j: nat)
    requires ExactPrefix(table, prefix)
    requires var all := Page(table, prefix, delimiter, startAfter, 0);
      j < |all| && forall i :: 0 <= i <= j ==> all[i].Group?
    ensures var all := Page(table, prefix, delimiter, startAfter, 0);
      Less(startAfter, all[j].name) <==> !(j == 0 && all[0].name <= startAfter)
  {
    hide ItemOf, Items, Rows;
    var rows := Rows(table, prefix, startAfter);
    RowsAre(table, prefix, startAfter);
    assert forall k :: k in rows ==> prefix <= k && |prefix| <= |k|;
    var all := Items(prefix, delimiter, rows);
    ItemsAre(prefix, delimiter, rows);
    var h := all[j].name;
    assert all[j] in all && all[j] !in all[..j];
    var y := RowOfEntry(prefix, delimiter, rows, all[j]);
    var b := rows[y];
    GroupIsPrefix(prefix, delimiter, b, h);
    if h <= startAfter {
      PrefixFirst(h, startAfter);
      if h == startAfter { LessIrreflexive(h); } else { LessAsymmetric(h, startAfter); }
      if j > 0 {
        assert all[0] in all[..j] && all[0] in all;
        var p := LaterRows(prefix, delimiter, rows, j, b);
        var x := RowOfEntry(prefix, delimiter, rows[..p], all[0]);
        var a := rows[x];
        assert rows[..p][x] == a && a in rows;
        GroupAfterKey(prefix, delimiter, a, b, h);
        SameSideOf(prefix, delimiter, a, b, h, startAfter);
        LessAsymmetric(a, b);
        LessAsymmetric(startAfter, a);
        assert false;
      }
    } else if startAfter == "" {
    } else {
      SameSide(h, startAfter, b);
    }
  }

  lemma SameSideOf(prefix: string, delimiter: string, a: string, b: string, h: string, x: string)
    requires prefix <= a && prefix <= b && h <= x
    requires ItemOf(prefix, delimiter, b) == Group(h) && ItemOf(prefix, delimiter, a) != Group(h)
    ensures Less(x, a) <==> Less(b, a)
  {
    GroupIsPrefix(prefix, delimiter, b, h);
    assert !(h <= a) by {
      if h <= a { SameGroup(prefix, delimiter, b, a, h); }
    }
    SameSide(h, a, b);
    SameSide(h, a, x);
  }

  // ------------------------------------------------------------ a client that never gets on

  lemma NoRowsNoItems(prefix: string, delimiter: string)
    ensures Items(prefix, delimiter, []) == []
  {
  }

  /** The first row outside the first group begins the second entry. */
  lemma {:induction false} SecondEntry(prefix: string, delimiter: string, rows: seq<string>) returns (p: nat)
    requires forall k :: k in rows ==> |prefix| <= |k|
    requires |Items(prefix, delimiter, rows)| >= 2
    ensures p < |rows| && rows[p] in rows && ItemOf(prefix, delimiter, rows[p]) == Items(prefix, delimiter, rows)[1]
    ensures forall i :: 0 <= i < p ==>
      rows[i] in rows && ItemOf(prefix, delimiter, rows[i]) == Items(prefix, delimiter, rows)[0]
    ensures Items(prefix, delimiter, rows)[1] != Items(prefix, delimiter, rows)[0]
  {
    hide ItemOf, Items;
    assert rows != [] by { NoRowsNoItems(prefix, delimiter); }
    var n := |rows| - 1;
    var front := rows[..n];
    assert forall k :: k in front ==> k in rows;
    ItemsStep(prefix, delimiter, rows, n);
    assert rows[..n + 1] == rows;
    var before := Items(prefix, delimiter, front);
    ItemsDistinct(prefix, delimiter, rows);
    if |before| >= 2 {
      p := SecondEntry(prefix, delimiter, front);
      assert forall i :: 0 <= i < n ==> front[i] == rows[i];
    } else {
      p := n;
      assert before == [before[0]] && Items(prefix, delimiter, rows) == before + [ItemOf(prefix, delimiter, rows[n])];
      OneEntry(prefix, delimiter, front);
      assert forall i :: 0 <= i < n ==> front[i] == rows[i];
    }
  }

  lemma ItemsDistinct(prefix: string, delimiter: string, rows: seq<string>)
    requires forall k :: k in rows ==> |prefix| <= |k|
    ensures |Items(prefix, delimiter, rows)| >= 2 ==>
      Items(prefix, delimiter, rows)[1] != Items(prefix, delimiter, rows)[0]
  {
    hide ItemOf, Items;
    ItemsAre(prefix, delimiter, rows);
  }

  lemma OneEntry(prefix: string, delimiter: string, rows: seq<string>)
    requires (forall k :: k in rows ==> |prefix| <= |k|) && |Items(prefix, delimiter, rows)| == 1
    ensures forall i :: 0 <= i < |rows| ==>
      rows[i] in rows && ItemOf(prefix, delimiter, rows[i]) == Items(prefix, delimiter, rows)[0]
  {
    hide ItemOf, Items;
    ItemsAre(prefix, delimiter, rows);
    forall i | 0 <= i < |rows|
      ensures rows[i] in rows && ItemOf(prefix, delimiter, rows[i]) == Items(prefix, delimiter, rows)[0]
    {
      assert rows[i] in rows;
      assert ItemOf(prefix, delimiter, rows[i]) in Items(prefix, delimiter, rows);
    }
  }

  lemma {:induction false} FirstEntry(prefix: string, delimiter: string, rows: seq<string>)
    requires rows != [] && forall k :: k in rows ==> |prefix| <= |k|
    ensures rows[0] in rows && |Items(prefix, delimiter, rows)| >= 1
    ensures Items(prefix, delimiter, rows)[0] == ItemOf(prefix, delimiter, rows[0])
  {
    hide ItemOf;
    var front := rows[..|rows| - 1];
    if front == [] {
      assert Items(prefix, delimiter, front) == [];
    } else {
      assert forall k :: k in front ==> k in rows;
      FirstEntry(prefix, delimiter, front);
    }
  }

  /**
   Rows beyond a group's name and rows beyond a cursor that leaves some of the group to
   list: outside the group they are the same.
   */
  lemma SameOutside(table: set<string>, prefix: string, delimiter: string, startAfter: string, g: string, b: string,
                    y: string)
    requires ExactPrefix(table, prefix) && g != "" && b in table && prefix <= b && prefix <= y && y in table
    requires ItemOf(prefix, delimiter, b) == Group(g) && ItemOf(prefix, delimiter, y) != Group(g)
    requires startAfter == "" || Less(startAfter, b)
    requires Less(b, y) || Less(g, y)
    ensures Less(g, y) && (startAfter == "" || Less(startAfter, y)) && Less(b, y)
  {
    GroupAfterKey(prefix, delimiter, y, b, g);
    if startAfter != "" { LessTransitive(startAfter, b, y); }
  }

  /** The least rows outside the group agree. */
  lemma SameSecondRow(table: set<string>, prefix: string, delimiter: string, startAfter: string, g: string,
                      rows: seq<string>, rows': seq<string>, p: nat, p': nat)
    requires ExactPrefix(table, prefix) && g != ""
    requires Ordered(rows) && Ordered(rows')
    requires forall k :: k in rows <==> k in table && prefix <= k && (startAfter == "" || Less(startAfter, k))
    requires forall k :: k in rows' <==> k in table && prefix <= k && Less(g, k)
    requires 0 < p < |rows| && p' < |rows'| && (forall i :: 0 <= i <= p ==> rows[i] in rows)
      && (forall i :: 0 <= i <= p' ==> rows'[i] in rows')
    requires forall i :: 0 <= i < p ==> ItemOf(prefix, delimiter, rows[i]) == Group(g)
    requires forall i :: 0 <= i < p' ==> ItemOf(prefix, delimiter, rows'[i]) == Group(g)
    requires ItemOf(prefix, delimiter, rows[p]) != Group(g) && ItemOf(prefix, delimiter, rows'[p']) != Group(g)
    ensures rows[p] == rows'[p']
  {
    hide ItemOf;
    var b, y, y' := rows[0], rows[p], rows'[p'];
    SameOutside(table, prefix, delimiter, startAfter, g, b, y);
    SameOutside(table, prefix, delimiter, startAfter, g, b, y');
    var i :| 0 <= i < |rows'| && rows'[i] == y;
    var j :| 0 <= j < |rows| && rows[j] == y';
    assert i >= p' && j >= p;
    if y != y' { LessAsymmetric(y, y'); }
  }

  /** A group with members is the first entry again when the listing goes on from its name. */
  lemma GroupStaysFirst(table: set<string>, prefix: string, delimiter: string, startAfter: string, g: string)
    requires ExactPrefix(table, prefix) && HasMembers(table, prefix, delimiter, g)
    requires var all := Page(table, prefix, delimiter, startAfter, 0); all != [] && all[0] == Group(g)
    ensures var again := Page(table, prefix, delimiter, g, 0); again != [] && again[0] == Group(g)
  {
    hide ItemOf, Items, Rows, HasMembers;
    var all := Page(table, prefix, delimiter, startAfter, 0);
    assert all[0] in all;
    TokenNonEmpty(table, prefix, delimiter, startAfter, g);
    var rows' := Rows(table, prefix, g);
    RowsAre(table, prefix, g);
    assert forall k :: k in rows' ==> prefix <= k && |prefix| <= |k|;
    TokenGroupAgain(table, prefix, delimiter, g);
    var m := RowOfEntry(prefix, delimiter, rows', Group(g));
    if m > 0 { LessAsymmetric(rows'[0], rows'[m]); }
    if ItemOf(prefix, delimiter, rows'[0]) != Group(g) {
      GroupAfterKey(prefix, delimiter, rows'[0], rows'[m], g);
    }
    FirstEntry(prefix, delimiter, rows');
  }

  lemma ExactRows(table: set<string>, prefix: string, startAfter: string)
    requires ExactPrefix(table, prefix)
    ensures Ordered(Rows(table, prefix, startAfter))
    ensures forall k :: k in Rows(table, prefix, startAfter) <==>
      k in table && prefix <= k && (startAfter == "" || Less(startAfter, k))
    ensures forall k :: k in Rows(table, prefix, startAfter) ==> |prefix| <= |k|
  {
    hide Rows, Less;
    RowsAre(table, prefix, startAfter);
  }

  /** Its page and the one after it then begin with the same two entries. */
  lemma SameTwoEntries(table: set<string>, prefix: string, delimiter: string, startAfter: string)
    requires ExactPrefix(table, prefix)
    requires var all := Page(table, prefix, delimiter, startAfter, 0);
      |all| >= 2 && all[0].Group? && HasMembers(table, prefix, delimiter, all[0].name)
    ensures var all := Page(table, prefix, delimiter, startAfter, 0);
      var again := Page(table, prefix, delimiter, all[0].name, 0);
      |again| >= 2 && again[..2] == all[..2]
  {
    hide ItemOf, Items, Rows, HasMembers, Less, FoldedPrefix;
    var rows := Rows(table, prefix, startAfter);
    ExactRows(table, prefix, startAfter);
    var all := Items(prefix, delimiter, rows);
    var g := all[0].name;
    GroupStaysFirst(table, prefix, delimiter, startAfter, g);
    assert all[0] in all;
    TokenNonEmpty(table, prefix, delimiter, startAfter, g);
    var p := SecondEntry(prefix, delimiter, rows);
    FirstEntry(prefix, delimiter, rows);
    assert p > 0;
    var rows' := Rows(table, prefix, g);
    ExactRows(table, prefix, g);
    var again := Items(prefix, delimiter, rows');
    FirstEntry(prefix, delimiter, rows');
    SameOutside(table, prefix, delimiter, startAfter, g, rows[0], rows[p]);
    assert rows[p] in rows';
    ItemsAre(prefix, delimiter, rows');
    assert all[1] in again && again[0] != all[1];
    var p' := SecondEntry(prefix, delimiter, rows');
    SameSecondRow(table, prefix, delimiter, startAfter, g, rows, rows', p, p');
  }

  /**
   With pages of one entry, the page after a group is that same page again, with the same
   token, exactly when the group has a key other than its name: such a client never ends.
   */
  lemma SamePageAgainIff(table: set<string>, prefix: string, delimiter: string, startAfter: string, maxKeys: int)
    requires ExactPrefix(table, prefix) && Listed(table, prefix, delimiter, startAfter, maxKeys).truncated
    requires Limit(maxKeys) == 1 && Listed(table, prefix, delimiter, startAfter, maxKeys).objects == []
    ensures var r := Listed(table, prefix, delimiter, startAfter, maxKeys);
      Listed(table, prefix, delimiter, r.next, maxKeys) == r <==> HasMembers(table, prefix, delimiter, r.next)
  {
    hide Items, Rows, ItemOf, FoldedPrefix, Ordered, HasMembers;
    var r := Listed(table, prefix, delimiter, startAfter, maxKeys);
    var page := Page(table, prefix, delimiter, startAfter, 2);
    assert Limit(maxKeys) + 1 == 2;
    AllGroups(table, prefix, delimiter, startAfter, maxKeys);
    TruncatedPage(table, prefix, delimiter, startAfter, maxKeys);
    var g := r.next;
    assert Page(table, prefix, delimiter, startAfter, 0)[0] in Page(table, prefix, delimiter, startAfter, 0);
    TokenNonEmpty(table, prefix, delimiter, startAfter, g);
    TokenGroupAgain(table, prefix, delimiter, g);
    if HasMembers(table, prefix, delimiter, g) {
      SameTwoEntries(table, prefix, delimiter, startAfter);
      assert Page(table, prefix, delimiter, g, 2) == Page(table, prefix, delimiter, g, 0)[..2] == page;
    }
    if Listed(table, prefix, delimiter, g, maxKeys) == r {
      var again := Page(table, prefix, delimiter, g, 2);
      CountParts(again);
      assert g in r.commonPrefixes;
      assert g in GroupsIn(again) && Group(g) in again;
    }
  }

  lemma TwoRows()
    ensures var rows := ["a/1", "b"];
      Rows({"a/1", "b"}, "", "") == rows && Items("", "/", rows) == [Group("a/"), Key("b")]
  {
    var rows := ["a/1", "b"];
    assert rows[0] == "a/1" && rows[1] == "b";
    RowsAre({"a/1", "b"}, "", "");
    OrderedUnique(Rows({"a/1", "b"}, "", ""), rows);
    assert OccursAt("a/1", "/", 1);
    assert ItemOf("", "/", "a/1") == Group("a/");
    assert ItemOf("", "/", "b") == Key("b");
    assert rows[..1] == ["a/1"];
    assert ["a/1"][..0] == [];
    assert Items("", "/", ["a/1"]) == [Group("a/")];
  }

  /**
   With a delimiter the tokens do not list everything: of a group and a later key the
   page of one entry keeps the key, and the next page starts after it.
   */
  lemma DelimiterSkipsAGroup()
    ensures var table := {"a/1", "b"};
      var first := Listed(table, "", "/", "", 1);
      && Page(table, "", "/", "", 0) == [Group("a/"), Key("b")]
      && first == ListResult(["b"], [], true, "b")
      && Listed(table, "", "/", first.next, 1) == ListResult([], [], false, "")
  {
    hide Items, Rows, Less, ItemOf, FoldedPrefix;
    TwoRows();
    var items := [Group("a/"), Key("b")];
    assert Page({"a/1", "b"}, "", "/", "", 0) == items;
    assert Page({"a/1", "b"}, "", "/", "", 2) == items;
    assert items[..1] == [Group("a/")] && [Group("a/")][..0] == [];
    assert KeysIn(items) == ["b"] && GroupsIn(items) == ["a/"];
    NoRowsAfter();
  }

  lemma NoRowsAfter()
    ensures Page({"a/1", "b"}, "", "/", "b", 2) == []
  {
    RowsAre({"a/1", "b"}, "", "b");
    assert !Less("b", "a/1") && !Less("b", "b");
    OrderedUnique(Rows({"a/1", "b"}, "", "b"), []);
  }
}
