/**
 A client that follows the tokens of a listing with a delimiter: when it comes to an end,
 and what it has been shown by then.
 */
module DelimiterChains {
  import opened GoStrings
  import opened Collections
  import opened Listing
  import opened DelimiterPages

  /** The pages that this many requests get, or fewer where the listing ends. */
  ghost function Follow(table: set<string>, prefix: string, delimiter: string, startAfter: string, maxKeys: int,
                        n: nat): seq<ListResult>
    decreases n
  {
    if n == 0 then []
    else
      var r := Listed(table, prefix, delimiter, startAfter, maxKeys);
      [r] + if r.truncated then Follow(table, prefix, delimiter, r.next, maxKeys, n - 1) else []
  }

  predicate Ended(pages: seq<ListResult>) {
    pages != [] && !pages[|pages| - 1].truncated
  }

  /** A page of one group with members, which is followed by itself. */
  ghost predicate Stuck(table: set<string>, prefix: string, delimiter: string, maxKeys: int, r: ListResult) {
    Limit(maxKeys) == 1 && r.truncated && r.objects == [] && HasMembers(table, prefix, delimiter, r.next)
  }

  function Beyond(table: set<string>, cursor: string): set<string> {
    set k | k in table && (cursor == "" || Less(cursor, k))
  }

  // ------------------------------------------------------------ any keys at all

  /** A client is given the same token a second time. */
  ghost predicate TokenTwice(pages: seq<ListResult>) {
    exists i, j :: 0 <= i < j < |pages| && pages[i].truncated && pages[j].truncated && pages[i].next == pages[j].next
  }

  /** The names of entries, among them all tokens. */
  ghost function Names(keys: set<string>, prefix: string, delimiter: string): set<string> {
    set k | k in keys && |prefix| <= |k| :: NameOf(ItemOf(prefix, delimiter, k))
  }

  lemma {:induction false} FewNames(keys: set<string>, prefix: string, delimiter: string)
    ensures |Names(keys, prefix, delimiter)| <= |keys|
  {
    hide ItemOf;
    if keys == {} {
      assert Names(keys, prefix, delimiter) == {};
    } else {
      var k :| k in keys;
      var rest := keys - {k};
      FewNames(rest, prefix, delimiter);
      var names := Names(rest, prefix, delimiter);
      var more := if |prefix| <= |k| then {NameOf(ItemOf(prefix, delimiter, k))} else {};
      assert Names(keys, prefix, delimiter) == names + more;
    }
  }

  lemma FirstEntries(table: set<string>, prefix: string, delimiter: string, startAfter: string, maxKeys: int, x: Item)
    requires x in Page(table, prefix, delimiter, startAfter, Limit(maxKeys) + 1)
    ensures x in Page(table, prefix, delimiter, startAfter, 0)
  {
    hide Rows, Items;
  }

  lemma TokenIsName(table: set<string>, prefix: string, delimiter: string, startAfter: string, maxKeys: int)
    requires Listed(table, prefix, delimiter, startAfter, maxKeys).truncated
    ensures Listed(table, prefix, delimiter, startAfter, maxKeys).next in Names(table, prefix, delimiter)
  {
    hide Page, KeysIn, GroupsIn, ItemOf;
    var page := Page(table, prefix, delimiter, startAfter, Limit(maxKeys) + 1);
    CountParts(page);
    var next := Listed(table, prefix, delimiter, startAfter, maxKeys).next;
    assert next in KeysIn(page) || next in GroupsIn(page);
    var x := if next in KeysIn(page) then Key(next) else Group(next);
    assert x in page && NameOf(x) == next;
    EntriesOf(table, prefix, delimiter, startAfter, x);
    FirstEntries(table, prefix, delimiter, startAfter, maxKeys, x);
    var k :| k in table && FoldedPrefix(prefix, k) && (startAfter == "" || Less(startAfter, k))
      && ItemOf(prefix, delimiter, k) == x;
  }

  /** Every page but the last is truncated; the tokens are names of entries. */
  lemma {:induction false} PagesOf(table: set<string>, prefix: string, delimiter: string, startAfter: string,
                                   maxKeys: int, n: nat)
    ensures var pages := Follow(table, prefix, delimiter, startAfter, maxKeys, n);
      && |pages| <= n && (!Ended(pages) ==> |pages| == n)
      && (forall i :: 0 <= i < |pages| && (i < |pages| - 1 || !Ended(pages)) ==> pages[i].truncated)
      && (forall i :: 0 <= i < |pages| && pages[i].truncated ==> pages[i].next in Names(table, prefix, delimiter))
    decreases n
  {
    hide Listed, Names;
    if n > 0 {
      FollowOne(table, prefix, delimiter, startAfter, maxKeys, n);
      var r := Listed(table, prefix, delimiter, startAfter, maxKeys);
      if r.truncated {
        PagesOf(table, prefix, delimiter, r.next, maxKeys, n - 1);
        TokenIsName(table, prefix, delimiter, startAfter, maxKeys);
      }
    }
  }

  lemma SkipFirst(r: ListResult, rest: seq<ListResult>, i: nat)
    requires i < |[r] + rest|
    ensures ([r] + rest)[i + 1..] == rest[i..] && rest[0..] == rest
    ensures i > 0 ==> ([r] + rest)[i] == rest[i - 1]
  {
  }

  /** What comes after a page is what a client gets that starts at its token. */
  lemma {:induction false} Resumes(table: set<string>, prefix: string, delimiter: string, startAfter: string,
                                   maxKeys: int, n: nat, i: nat)
    requires i < n && i < |Follow(table, prefix, delimiter, startAfter, maxKeys, n)|
    requires Follow(table, prefix, delimiter, startAfter, maxKeys, n)[i].truncated
    ensures var pages := Follow(table, prefix, delimiter, startAfter, maxKeys, n);
      pages[i + 1..] == Follow(table, prefix, delimiter, pages[i].next, maxKeys, n - i - 1)
    decreases n
  {
    hide Listed, Follow;
    var r := Listed(table, prefix, delimiter, startAfter, maxKeys);
    FollowOne(table, prefix, delimiter, startAfter, maxKeys, n);
    var rest := if r.truncated then Follow(table, prefix, delimiter, r.next, maxKeys, n - 1) else [];
    SkipFirst(r, rest, i);
    if i > 0 {
      PagesOf(table, prefix, delimiter, r.next, maxKeys, n - 1);
      Resumes(table, prefix, delimiter, r.next, maxKeys, n - 1, i - 1);
    }
  }

  /** Asking on after the end changes nothing. */
  lemma {:induction false} EndStays(table: set<string>, prefix: string, delimiter: string, startAfter: string,
                                    maxKeys: int, n: nat, m: nat)
    requires Ended(Follow(table, prefix, delimiter, startAfter, maxKeys, n))
    requires |Follow(table, prefix, delimiter, startAfter, maxKeys, n)| <= m
    ensures Follow(table, prefix, delimiter, startAfter, maxKeys, m)
      == Follow(table, prefix, delimiter, startAfter, maxKeys, n)
    decreases n
  {
    hide Listed;
    NoneAsked(table, prefix, delimiter, startAfter, maxKeys, n);
    FollowOne(table, prefix, delimiter, startAfter, maxKeys, n);
    FollowOne(table, prefix, delimiter, startAfter, maxKeys, m);
    var r := Listed(table, prefix, delimiter, startAfter, maxKeys);
    if r.truncated {
      EndedStep(r, Follow(table, prefix, delimiter, r.next, maxKeys, n - 1));
      EndStays(table, prefix, delimiter, r.next, maxKeys, n - 1, m - 1);
    }
  }

  lemma RestEnds(pages: seq<ListResult>, i: nat)
    requires Ended(pages) && i < |pages| && pages[i].truncated
    ensures Ended(pages[i + 1..])
  {
  }

  lemma NeverTwice(table: set<string>, prefix: string, delimiter: string, startAfter: string, maxKeys: int, n: nat)
    requires Ended(Follow(table, prefix, delimiter, startAfter, maxKeys, n))
    ensures !TokenTwice(Follow(table, prefix, delimiter, startAfter, maxKeys, n))
  {
    hide Follow, Listed, Names, Ended;
    var pages := Follow(table, prefix, delimiter, startAfter, maxKeys, n);
    PagesOf(table, prefix, delimiter, startAfter, maxKeys, n);
    if i, j :| 0 <= i < j < |pages| && pages[i].truncated && pages[j].truncated && pages[i].next == pages[j].next {
      Resumes(table, prefix, delimiter, startAfter, maxKeys, n, i);
      Resumes(table, prefix, delimiter, startAfter, maxKeys, n, j);
      RestEnds(pages, j);
      EndStays(table, prefix, delimiter, pages[i].next, maxKeys, n - j - 1, n - i - 1);
    }
  }

  /** Truncated pages with different tokens are no more than there are names. */
  lemma FewPages(table: set<string>, prefix: string, delimiter: string, pages: seq<ListResult>, n: nat)
    requires n <= |pages| && !TokenTwice(pages)
    requires forall i :: 0 <= i < n ==> pages[i].truncated && pages[i].next in Names(table, prefix, delimiter)
    ensures n <= |table|
  {
    hide Names;
    var tokens := seq(n, i requires 0 <= i < n => pages[i].next);
    DistinctSize(tokens, Names(table, prefix, delimiter));
    FewNames(table, prefix, delimiter);
  }

  /**
   Whatever the keys and the page size, a client comes to the end, with at most one request
   more than there are keys, or it is given some token twice, and then it never does.
   */
  lemma EndsOrRepeats(table: set<string>, prefix: string, delimiter: string, startAfter: string, maxKeys: int, n: nat)
    requires n > |table|
    ensures var pages := Follow(table, prefix, delimiter, startAfter, maxKeys, n);
      && (Ended(pages) <==> !TokenTwice(pages))
      && (Ended(pages) ==> |pages| <= |table| + 1)
      && (Ended(pages) <==> Ended(Follow(table, prefix, delimiter, startAfter, maxKeys, |table| + 1)))
  {
    hide Follow, Listed, Names, Ended, TokenTwice;
    var pages := Follow(table, prefix, delimiter, startAfter, maxKeys, n);
    PagesOf(table, prefix, delimiter, startAfter, maxKeys, n);
    if Ended(pages) {
      NeverTwice(table, prefix, delimiter, startAfter, maxKeys, n);
      NoneAsked(table, prefix, delimiter, startAfter, maxKeys, n);
      FewPages(table, prefix, delimiter, pages, |pages| - 1);
      EndStays(table, prefix, delimiter, startAfter, maxKeys, n, |table| + 1);
    } else if !TokenTwice(pages) {
      FewPages(table, prefix, delimiter, pages, n);
    }
    if Ended(Follow(table, prefix, delimiter, startAfter, maxKeys, |table| + 1)) {
      PagesOf(table, prefix, delimiter, startAfter, maxKeys, |table| + 1);
      EndStays(table, prefix, delimiter, startAfter, maxKeys, |table| + 1, n);
    }
  }

  // ------------------------------------------------------------ keys that match by their case only

  lemma RowOrder()
    ensures Less("a/1", "a0/1") && Less("a0/1", "a1/1") && Less("a/1", "a1/1")
    ensures Less("A0/", "a/1") && Less("A0/", "a0/1") && Less("A0/", "a1/1")
  {
    assert "/1" == ['/', '1'] && "0/1" == ['0', '/', '1'] && "1/1" == ['1', '/', '1'];
    assert "a/1"[1..] == "/1" && "a0/1"[1..] == "0/1" && "a1/1"[1..] == "1/1";
  }

  lemma ThreeRows(cursor: string)
    requires cursor == "" || cursor == "A0/"
    ensures Rows({"a/1", "a0/1", "a1/1"}, "A", cursor) == ["a/1", "a0/1", "a1/1"]
  {
    hide Rows, Less;
    RowsAre({"a/1", "a0/1", "a1/1"}, "A", cursor);
    var rows := ["a/1", "a0/1", "a1/1"];
    RowOrder();
    assert rows[0] == "a/1" && rows[1] == "a0/1" && rows[2] == "a1/1";
    assert forall k :: k in rows ==> FoldedPrefix("A", k);
    OrderedUnique(Rows({"a/1", "a0/1", "a1/1"}, "A", cursor), rows);
  }

  lemma GroupOfDigits(digits: string)
    requires '/' !in digits
    ensures ItemOf("A", "/", "a" + digits + "/1") == Group("A" + digits + "/")
  {
    hide Index;
    var k := "a" + digits + "/1";
    var rest := k[1..];
    assert rest == digits + ['/'] + "1";
    IndexOfFirst(digits, '/', "1");
    assert rest[..|digits| + 1] == digits + "/";
    assert "A" + (digits + "/") == "A" + digits + "/";
  }

  lemma ThreeGroups()
    ensures ItemOf("A", "/", "a/1") == Group("A/")
    ensures ItemOf("A", "/", "a0/1") == Group("A0/")
    ensures ItemOf("A", "/", "a1/1") == Group("A1/")
  {
    hide ItemOf;
    GroupOfDigits("");
    GroupOfDigits("0");
    GroupOfDigits("1");
    assert "a" + "" + "/1" == "a/1" && "A" + "" + "/" == "A/";
    assert "a" + "0" + "/1" == "a0/1" && "A" + "0" + "/" == "A0/";
    assert "a" + "1" + "/1" == "a1/1" && "A" + "1" + "/" == "A1/";
  }

  lemma ThreeItems()
    ensures Items("A", "/", ["a/1", "a0/1", "a1/1"]) == [Group("A/"), Group("A0/"), Group("A1/")]
  {
    hide ItemOf;
    ThreeGroups();
    var rows := ["a/1", "a0/1", "a1/1"];
    assert rows[..2] == ["a/1", "a0/1"] && ["a/1", "a0/1"][..1] == ["a/1"] && ["a/1"][..0] == [];
    assert Items("A", "/", ["a/1"]) == [Group("A/")];
    assert Items("A", "/", ["a/1", "a0/1"]) == [Group("A/"), Group("A0/")];
  }

  lemma NoParts()
    ensures KeysIn([]) == [] && GroupsIn([]) == []
  {
  }

  lemma GroupsOnly(a: string, b: string, c: string)
    ensures KeysIn([Group(a), Group(b), Group(c)]) == []
    ensures GroupsIn([Group(a), Group(b), Group(c)]) == [a, b, c]
  {
    hide KeysIn, GroupsIn;
    var x, y, z := Group(a), Group(b), Group(c);
    NoParts();
    PartsStep([], x);
    PartsStep([x], y);
    PartsStep([x, y], z);
    assert [] + [x] == [x] && [x] + [y] == [x, y] && [x, y] + [z] == [x, y, z];
  }

  lemma PageOfTwo(cursor: string)
    requires cursor == "" || cursor == "A0/"
    ensures Listed({"a/1", "a0/1", "a1/1"}, "A", "/", cursor, 2) == ListResult([], ["A/", "A0/"], true, "A0/")
  {
    hide Rows, Items, Less, KeysIn, GroupsIn, ItemOf, FoldedPrefix;
    ThreeRows(cursor);
    ThreeItems();
    assert Page({"a/1", "a0/1", "a1/1"}, "A", "/", cursor, 3) == [Group("A/"), Group("A0/"), Group("A1/")];
    GroupsOnly("A/", "A0/", "A1/");
    assert ["A/", "A0/", "A1/"][..2] == ["A/", "A0/"];
  }

  /**
   LIKE finds keys whose case differs from the prefix's, but a group's name has the case of
   the prefix.  Such a token can lie before all keys: with pages of two groups, each page is
   followed by itself, and no group after the second is ever shown.
   */
  lemma {:induction false} CaseSendsBack(startAfter: string, n: nat)
    requires startAfter == "" || startAfter == "A0/"
    ensures var pages := Follow({"a/1", "a0/1", "a1/1"}, "A", "/", startAfter, 2, n);
      && |pages| == n && !Ended(pages)
      && forall i :: 0 <= i < n ==> pages[i] == ListResult([], ["A/", "A0/"], true, "A0/")
    decreases n
  {
    hide Listed;
    if n > 0 {
      PageOfTwo(startAfter);
      CaseSendsBack("A0/", n - 1);
    }
  }

  // ------------------------------------------------------------ when it ends

  lemma Drops(table: set<string>, startAfter: string, next: string, k: string)
    requires Less(startAfter, next) && k in Beyond(table, startAfter) && !Less(next, k)
    ensures next != "" && |Beyond(table, next)| < |Beyond(table, startAfter)|
  {
    forall l | l in Beyond(table, next) ensures l in Beyond(table, startAfter) {
      if startAfter != "" { LessTransitive(startAfter, next, l); }
    }
    assert Beyond(table, next) <= Beyond(table, startAfter) - {k};
    Smaller(Beyond(table, next), Beyond(table, startAfter), k);
  }

  lemma Smaller(a: set<string>, b: set<string>, k: string)
    requires a <= b - {k} && k in b
    ensures |a| < |b|
  {
    var rest := b - {k} - a;
    assert b - {k} == a + rest;
  }

  /** Every other page leaves fewer keys to list. */
  lemma Proceeds(table: set<string>, prefix: string, delimiter: string, startAfter: string, maxKeys: int)
    requires ExactPrefix(table, prefix) && "" !in table
    requires var r := Listed(table, prefix, delimiter, startAfter, maxKeys);
      r.truncated && !Stuck(table, prefix, delimiter, maxKeys, r)
    ensures var r := Listed(table, prefix, delimiter, startAfter, maxKeys);
      Less(startAfter, r.next) && r.next != "" && |Beyond(table, r.next)| < |Beyond(table, startAfter)|
  {
    hide Page, Listed, KeysIn, GroupsIn, ItemOf, HasMembers;
    var r := Listed(table, prefix, delimiter, startAfter, maxKeys);
    var all := Page(table, prefix, delimiter, startAfter, 0);
    var page := Page(table, prefix, delimiter, startAfter, Limit(maxKeys) + 1);
    if KeysIn(page) != [] {
      KeyTokenAdvances(table, prefix, delimiter, startAfter, maxKeys);
      KeyIsRow(table, prefix, delimiter, startAfter, maxKeys);
      LessIrreflexive(r.next);
      Drops(table, startAfter, r.next, r.next);
    } else {
      AllGroups(table, prefix, delimiter, startAfter, maxKeys);
      var k := GroupRow(table, prefix, delimiter, startAfter, maxKeys);
      Drops(table, startAfter, r.next, k);
    }
  }

  lemma KeyIsRow(table: set<string>, prefix: string, delimiter: string, startAfter: string, maxKeys: int)
    requires ExactPrefix(table, prefix) && "" !in table
    requires Listed(table, prefix, delimiter, startAfter, maxKeys).objects != []
    ensures forall k :: k in Listed(table, prefix, delimiter, startAfter, maxKeys).objects ==>
      k in Beyond(table, startAfter)
  {
    hide KeysIn, GroupsIn, Rows, Items;
    PageEntries(table, prefix, delimiter, startAfter, maxKeys);
    RowsAre(table, prefix, startAfter);
  }

  /** Where a page shows groups only and is not stuck, the token leaves some key behind. */
  lemma GroupRow(table: set<string>, prefix: string, delimiter: string, startAfter: string, maxKeys: int)
      returns (k: string)
    requires ExactPrefix(table, prefix) && "" !in table
    requires var r := Listed(table, prefix, delimiter, startAfter, maxKeys);
      r.truncated && !Stuck(table, prefix, delimiter, maxKeys, r)
    requires KeysIn(Page(table, prefix, delimiter, startAfter, Limit(maxKeys) + 1)) == []
    ensures var r := Listed(table, prefix, delimiter, startAfter, maxKeys);
      Less(startAfter, r.next) && k in Beyond(table, startAfter) && !Less(r.next, k)
  {
    hide Page, Listed, KeysIn, GroupsIn, ItemOf;
    var r := Listed(table, prefix, delimiter, startAfter, maxKeys);
    var all := Page(table, prefix, delimiter, startAfter, 0);
    var n := Limit(maxKeys);
    AllGroups(table, prefix, delimiter, startAfter, maxKeys);
    assert all[0] in all && all[n - 1] in all;
    EntriesAfter(table, prefix, delimiter, startAfter, all[0]);
    TokenNonEmpty(table, prefix, delimiter, startAfter, r.next);
    if n == 1 {
      k :| k in table && prefix <= k && (startAfter == "" || Less(startAfter, k))
        && ItemOf(prefix, delimiter, k) == all[0];
      assert k == r.next;
      LessIrreflexive(k);
    } else {
      TokenAdvancesIff(table, prefix, delimiter, startAfter, maxKeys);
      EarlierGroupsBehind(table, prefix, delimiter, startAfter, 0, n - 1);
      EntriesAfter(table, prefix, delimiter, r.next, all[0]);
      k :| k in table && prefix <= k && (startAfter == "" || Less(startAfter, k))
        && ItemOf(prefix, delimiter, k) == all[0];
    }
  }

  /**
   Whatever the page size, a client that asks often enough comes to the end exactly when it
   meets no page that is followed by itself.
   */
  lemma {:induction false} EndsIff(table: set<string>, prefix: string, delimiter: string, startAfter: string,
                                   maxKeys: int, n: nat)
    requires ExactPrefix(table, prefix) && "" !in table && n > |Beyond(table, startAfter)|
    ensures var pages := Follow(table, prefix, delimiter, startAfter, maxKeys, n);
      Ended(pages) <==> forall i :: 0 <= i < |pages| ==> !Stuck(table, prefix, delimiter, maxKeys, pages[i])
    decreases n
  {
    hide Listed, Stuck, Beyond, Follow, Ended;
    var r := Listed(table, prefix, delimiter, startAfter, maxKeys);
    FollowOne(table, prefix, delimiter, startAfter, maxKeys, n);
    if !r.truncated {
      EndedStep(r, []);
      NotStuck(table, prefix, delimiter, maxKeys, r);
    } else if Stuck(table, prefix, delimiter, maxKeys, r) {
      StuckForEver(table, prefix, delimiter, startAfter, maxKeys, n);
    } else {
      var rest := Follow(table, prefix, delimiter, r.next, maxKeys, n - 1);
      Proceeds(table, prefix, delimiter, startAfter, maxKeys);
      EndsIff(table, prefix, delimiter, r.next, maxKeys, n - 1);
      FollowOne(table, prefix, delimiter, r.next, maxKeys, n - 1);
      EndedStep(r, rest);
      NoneStuckStep(table, prefix, delimiter, maxKeys, r, rest);
    }
  }

  lemma FollowOne(table: set<string>, prefix: string, delimiter: string, startAfter: string, maxKeys: int, n: nat)
    requires n > 0
    ensures var r := Listed(table, prefix, delimiter, startAfter, maxKeys);
      var pages := Follow(table, prefix, delimiter, startAfter, maxKeys, n);
      && pages != [] && pages[0] == r
      && pages == [r] + if r.truncated then Follow(table, prefix, delimiter, r.next, maxKeys, n - 1) else []
  {
  }

  lemma EndedStep(r: ListResult, rest: seq<ListResult>)
    ensures Ended([r] + rest) <==> if rest == [] then !r.truncated else Ended(rest)
  {
    assert rest != [] ==> ([r] + rest)[|rest|] == rest[|rest| - 1];
  }

  lemma NoneStuckStep(table: set<string>, prefix: string, delimiter: string, maxKeys: int, r: ListResult,
                      rest: seq<ListResult>)
    requires !Stuck(table, prefix, delimiter, maxKeys, r)
    ensures (forall i :: 0 <= i < |[r] + rest| ==> !Stuck(table, prefix, delimiter, maxKeys, ([r] + rest)[i])) <==>
      forall i :: 0 <= i < |rest| ==> !Stuck(table, prefix, delimiter, maxKeys, rest[i])
  {
    hide Stuck;
    assert forall i :: 0 <= i < |rest| ==> ([r] + rest)[i + 1] == rest[i];
    assert forall i :: 0 < i < |[r] + rest| ==> ([r] + rest)[i] == rest[i - 1];
  }

  lemma NotStuck(table: set<string>, prefix: string, delimiter: string, maxKeys: int, r: ListResult)
    requires !r.truncated
    ensures !Stuck(table, prefix, delimiter, maxKeys, r)
  {
  }

  /** Such a page is all a client ever gets from there on. */
  lemma {:induction false} StuckForEver(table: set<string>, prefix: string, delimiter: string, startAfter: string,
                                        maxKeys: int, n: nat)
    requires ExactPrefix(table, prefix)
    requires var r := Listed(table, prefix, delimiter, startAfter, maxKeys);
      r.truncated && Stuck(table, prefix, delimiter, maxKeys, r)
    ensures var pages := Follow(table, prefix, delimiter, startAfter, maxKeys, n);
      && |pages| == n && !Ended(pages)
      && forall i :: 0 <= i < n ==> pages[i] == Listed(table, prefix, delimiter, startAfter, maxKeys)
    decreases n
  {
    hide Listed, HasMembers;
    if n > 0 {
      var r := Listed(table, prefix, delimiter, startAfter, maxKeys);
      SamePageAgainIff(table, prefix, delimiter, startAfter, maxKeys);
      StuckForEver(table, prefix, delimiter, r.next, maxKeys, n - 1);
      var rest := Follow(table, prefix, delimiter, r.next, maxKeys, n - 1);
      assert Follow(table, prefix, delimiter, startAfter, maxKeys, n) == [r] + rest;
    }
  }

  // ------------------------------------------------------------ what it has been shown

  ghost predicate ShownBy(pages: seq<ListResult>, x: Item) {
    exists i :: 0 <= i < |pages| && Shown(pages[i], x)
  }

  /** An entry that is neither on the page nor listed after its token. */
  ghost predicate LostOn(table: set<string>, prefix: string, delimiter: string, startAfter: string, maxKeys: int,
                         x: Item) {
    var r := Listed(table, prefix, delimiter, startAfter, maxKeys);
    && r.truncated && x in Page(table, prefix, delimiter, startAfter, 0)
    && !Shown(r, x) && x !in Page(table, prefix, delimiter, r.next, 0)
  }

  /** Only a group that was trimmed behind a listed key is lost. */
  lemma LostIff(table: set<string>, prefix: string, delimiter: string, startAfter: string, maxKeys: int, x: Item)
    requires "" !in table && Listed(table, prefix, delimiter, startAfter, maxKeys).truncated
    requires Listed(table, prefix, delimiter, startAfter, maxKeys).objects == [] ==> ExactPrefix(table, prefix)
    ensures var page := Page(table, prefix, delimiter, startAfter, Limit(maxKeys) + 1);
      LostOn(table, prefix, delimiter, startAfter, maxKeys, x) <==>
        TrimsBehind(table, prefix, delimiter, page) && x == Group(LastOf(GroupsIn(page)))
  {
    hide Page, Listed, KeysIn, GroupsIn, Continues;
    ContinuationCoversIff(table, prefix, delimiter, startAfter, maxKeys);
    var page := Page(table, prefix, delimiter, startAfter, Limit(maxKeys) + 1);
    if LostOn(table, prefix, delimiter, startAfter, maxKeys, x) {
      if KeysIn(page) == [] {
        AllGroups(table, prefix, delimiter, startAfter, maxKeys);
        AllGroupsCovers(table, prefix, delimiter, startAfter, maxKeys);
        assert false;
      }
      KeyTokenAdvances(table, prefix, delimiter, startAfter, maxKeys);
      LostIsTrimmed(table, prefix, delimiter, startAfter, maxKeys, x);
    }
    if TrimsBehind(table, prefix, delimiter, page) {
      KeyTokenAdvances(table, prefix, delimiter, startAfter, maxKeys);
      var y :| y in Page(table, prefix, delimiter, startAfter, 0)
        && !Shown(Listed(table, prefix, delimiter, startAfter, maxKeys), y)
        && y !in Page(table, prefix, delimiter, Listed(table, prefix, delimiter, startAfter, maxKeys).next, 0);
      LostIsTrimmed(table, prefix, delimiter, startAfter, maxKeys, y);
    }
  }

  lemma LostIsTrimmed(table: set<string>, prefix: string, delimiter: string, startAfter: string, maxKeys: int, x: Item)
    requires "" !in table && LostOn(table, prefix, delimiter, startAfter, maxKeys, x)
    requires TrimsBehind(table, prefix, delimiter, Page(table, prefix, delimiter, startAfter, Limit(maxKeys) + 1))
    ensures x == Group(LastOf(GroupsIn(Page(table, prefix, delimiter, startAfter, Limit(maxKeys) + 1))))
  {
    hide Rows, Items, KeysIn, GroupsIn, Listed;
    var n := Limit(maxKeys);
    var all := Page(table, prefix, delimiter, startAfter, 0);
    TruncatedPage(table, prefix, delimiter, startAfter, maxKeys);
    var page := all[..n + 1];
    var r := Listed(table, prefix, delimiter, startAfter, maxKeys);
    KeysAndGroups(table, prefix, delimiter, startAfter, maxKeys);
    TrimsLast(table, prefix, delimiter, startAfter, maxKeys);
    CountParts(page);
    assert r.next in r.objects && Key(r.next) in page;
    if x !in page {
      CoveredBeyond(table, prefix, delimiter, startAfter, n + 1, Key(r.next), x);
    }
  }

  lemma TrimsLast(table: set<string>, prefix: string, delimiter: string, startAfter: string, maxKeys: int)
    requires Listed(table, prefix, delimiter, startAfter, maxKeys).truncated
    requires var page := Page(table, prefix, delimiter, startAfter, Limit(maxKeys) + 1);
      KeysIn(page) != [] && GroupsIn(page) != []
    ensures var groups := GroupsIn(Page(table, prefix, delimiter, startAfter, Limit(maxKeys) + 1));
      groups == Listed(table, prefix, delimiter, startAfter, maxKeys).commonPrefixes + [LastOf(groups)]
  {
    hide Page, KeysIn, GroupsIn;
    CountParts(Page(table, prefix, delimiter, startAfter, Limit(maxKeys) + 1));
    PageBound(table, prefix, delimiter, startAfter, Limit(maxKeys) + 1);
  }

  /** A page that is not truncated shows all there is. */
  lemma WholePage(table: set<string>, prefix: string, delimiter: string, startAfter: string, maxKeys: int)
    requires !Listed(table, prefix, delimiter, startAfter, maxKeys).truncated
    ensures var r := Listed(table, prefix, delimiter, startAfter, maxKeys);
      var all := Page(table, prefix, delimiter, startAfter, 0);
      r.objects == KeysIn(all) && forall x :: Shown(r, x) <==> x in all
  {
    hide KeysIn, GroupsIn, Rows, Items;
    var page := Page(table, prefix, delimiter, startAfter, Limit(maxKeys) + 1);
    CountParts(page);
    TruncatedIff(table, prefix, delimiter, startAfter, maxKeys);
    assert page == Page(table, prefix, delimiter, startAfter, 0);
    forall x ensures Shown(Listed(table, prefix, delimiter, startAfter, maxKeys), x) <==> x in page {
      match x
      case Key(k) =>
      case Group(g) =>
    }
  }

  /** What a page shows is listed after its cursor, and so is what comes after its token. */
  lemma ShownIsListed(table: set<string>, prefix: string, delimiter: string, startAfter: string, maxKeys: int, x: Item)
    requires Shown(Listed(table, prefix, delimiter, startAfter, maxKeys), x)
    ensures x in Page(table, prefix, delimiter, startAfter, 0)
  {
    hide KeysIn, GroupsIn, Rows, Items;
    var page := Page(table, prefix, delimiter, startAfter, Limit(maxKeys) + 1);
    CountParts(page);
    assert x in page;
  }

  lemma LaterIsListed(table: set<string>, prefix: string, delimiter: string, startAfter: string, next: string, x: Item)
    requires ExactPrefix(table, prefix) && Less(startAfter, next) && next != ""
    requires x in Page(table, prefix, delimiter, next, 0)
    ensures x in Page(table, prefix, delimiter, startAfter, 0)
  {
    hide Page, ItemOf;
    EntriesAfter(table, prefix, delimiter, next, x);
    EntriesAfter(table, prefix, delimiter, startAfter, x);
    var k :| k in table && prefix <= k && (next == "" || Less(next, k)) && ItemOf(prefix, delimiter, k) == x;
    if startAfter != "" { LessTransitive(startAfter, next, k); }
  }

  lemma EndedProceeds(table: set<string>, prefix: string, delimiter: string, startAfter: string, maxKeys: int, n: nat)
    requires ExactPrefix(table, prefix) && "" !in table
    requires Ended(Follow(table, prefix, delimiter, startAfter, maxKeys, n))
    ensures var r := Listed(table, prefix, delimiter, startAfter, maxKeys);
      && n > 0
      && (r.truncated ==>
        && Less(startAfter, r.next) && r.next != "" && n > 1
        && Ended(Follow(table, prefix, delimiter, r.next, maxKeys, n - 1)))
  {
    hide Listed, HasMembers, Follow, Ended;
    assert n > 0 by { NoneAsked(table, prefix, delimiter, startAfter, maxKeys, n); }
    var r := Listed(table, prefix, delimiter, startAfter, maxKeys);
    if r.truncated {
      FollowOne(table, prefix, delimiter, startAfter, maxKeys, n);
      EndedStep(r, Follow(table, prefix, delimiter, r.next, maxKeys, n - 1));
      NoneAsked(table, prefix, delimiter, r.next, maxKeys, n - 1);
      if Stuck(table, prefix, delimiter, maxKeys, r) {
        StuckForEver(table, prefix, delimiter, startAfter, maxKeys, n);
        assert false;
      }
      Proceeds(table, prefix, delimiter, startAfter, maxKeys);
    }
  }

  lemma NoneAsked(table: set<string>, prefix: string, delimiter: string, startAfter: string, maxKeys: int, n: nat)
    ensures n == 0 ==> Follow(table, prefix, delimiter, startAfter, maxKeys, n) == []
    ensures !Ended([])
  {
  }

  lemma {:induction false} ShownIsWithin(table: set<string>, prefix: string, delimiter: string, startAfter: string,
                                         maxKeys: int, n: nat, x: Item)
    requires ExactPrefix(table, prefix) && "" !in table
    requires Ended(Follow(table, prefix, delimiter, startAfter, maxKeys, n))
    requires ShownBy(Follow(table, prefix, delimiter, startAfter, maxKeys, n), x)
    ensures x in Page(table, prefix, delimiter, startAfter, 0)
    decreases n
  {
    hide Listed, Follow, Ended, Page, ShownBy;
    EndedProceeds(table, prefix, delimiter, startAfter, maxKeys, n);
    FollowOne(table, prefix, delimiter, startAfter, maxKeys, n);
    var r := Listed(table, prefix, delimiter, startAfter, maxKeys);
    var rest := if r.truncated then Follow(table, prefix, delimiter, r.next, maxKeys, n - 1) else [];
    ShownByStep(r, rest, x);
    if Shown(r, x) {
      ShownIsListed(table, prefix, delimiter, startAfter, maxKeys, x);
    } else {
      NoneShown(rest, x);
      ShownIsWithin(table, prefix, delimiter, r.next, maxKeys, n - 1, x);
      LaterIsListed(table, prefix, delimiter, startAfter, r.next, x);
    }
  }

  lemma ShownByStep(r: ListResult, rest: seq<ListResult>, x: Item)
    ensures ShownBy([r] + rest, x) <==> Shown(r, x) || ShownBy(rest, x)
  {
    if Shown(r, x) { assert Shown(([r] + rest)[0], x); }
    if i :| 0 <= i < |rest| && Shown(rest[i], x) { assert Shown(([r] + rest)[i + 1], x); }
  }

  lemma NoneShown(rest: seq<ListResult>, x: Item)
    ensures rest == [] ==> !ShownBy(rest, x)
  {
  }

  /** The cursor of the i-th request. */
  function TokenAt(startAfter: string, pages: seq<ListResult>, i: nat): string
    requires i <= |pages|
  {
    if i == 0 then startAfter else pages[i - 1].next
  }

  ghost predicate LostAt(table: set<string>, prefix: string, delimiter: string, startAfter: string, maxKeys: int,
                         pages: seq<ListResult>, i: nat, x: Item)
    requires i <= |pages|
  {
    LostOn(table, prefix, delimiter, TokenAt(startAfter, pages, i), maxKeys, x) && !ShownBy(pages[..i], x)
  }

  /**
   A client that has come to the end has missed an entry exactly when one of its pages lost
   it, and none before had shown it.
   */
  lemma {:induction false} MissedIff(table: set<string>, prefix: string, delimiter: string, startAfter: string,
                                     maxKeys: int, n: nat, x: Item)
    requires ExactPrefix(table, prefix) && "" !in table
    requires Ended(Follow(table, prefix, delimiter, startAfter, maxKeys, n))
    requires x in Page(table, prefix, delimiter, startAfter, 0)
    ensures var pages := Follow(table, prefix, delimiter, startAfter, maxKeys, n);
      !ShownBy(pages, x) <==>
        exists i :: 0 <= i < |pages| && LostAt(table, prefix, delimiter, startAfter, maxKeys, pages, i, x)
    decreases n
  {
    hide Listed, Follow, Ended, Page, ShownBy, LostOn;
    EndedProceeds(table, prefix, delimiter, startAfter, maxKeys, n);
    FollowOne(table, prefix, delimiter, startAfter, maxKeys, n);
    var r := Listed(table, prefix, delimiter, startAfter, maxKeys);
    var rest := if r.truncated then Follow(table, prefix, delimiter, r.next, maxKeys, n - 1) else [];
    ShownByStep(r, rest, x);
    LostStep(table, prefix, delimiter, startAfter, maxKeys, rest, x);
    if !r.truncated {
      WholePage(table, prefix, delimiter, startAfter, maxKeys);
      NotLostFirst(table, prefix, delimiter, startAfter, maxKeys, x);
    } else if Shown(r, x) {
      NotLostShown(table, prefix, delimiter, startAfter, maxKeys, x);
    } else if x in Page(table, prefix, delimiter, r.next, 0) {
      MissedIff(table, prefix, delimiter, r.next, maxKeys, n - 1, x);
      NotLostFirst(table, prefix, delimiter, startAfter, maxKeys, x);
    } else {
      if ShownBy(rest, x) { ShownIsWithin(table, prefix, delimiter, r.next, maxKeys, n - 1, x); }
      LostFirst(table, prefix, delimiter, startAfter, maxKeys, x);
    }
  }

  lemma NotLostFirst(table: set<string>, prefix: string, delimiter: string, startAfter: string, maxKeys: int, x: Item)
    requires var r := Listed(table, prefix, delimiter, startAfter, maxKeys);
      !r.truncated || x in Page(table, prefix, delimiter, r.next, 0)
    ensures !LostOn(table, prefix, delimiter, startAfter, maxKeys, x)
  {
  }

  lemma NotLostShown(table: set<string>, prefix: string, delimiter: string, startAfter: string, maxKeys: int, x: Item)
    requires Shown(Listed(table, prefix, delimiter, startAfter, maxKeys), x)
    ensures !LostOn(table, prefix, delimiter, startAfter, maxKeys, x)
  {
  }

  lemma LostFirst(table: set<string>, prefix: string, delimiter: string, startAfter: string, maxKeys: int, x: Item)
    requires var r := Listed(table, prefix, delimiter, startAfter, maxKeys);
      r.truncated && !Shown(r, x) && x !in Page(table, prefix, delimiter, r.next, 0)
    requires x in Page(table, prefix, delimiter, startAfter, 0)
    ensures LostOn(table, prefix, delimiter, startAfter, maxKeys, x)
  {
  }

  /** Where an entry is lost along the pages: on the first, or, unless the first shows it, on a later one. */
  lemma LostStep(table: set<string>, prefix: string, delimiter: string, startAfter: string, maxKeys: int,
                 rest: seq<ListResult>, x: Item)
    ensures var r := Listed(table, prefix, delimiter, startAfter, maxKeys);
      var pages := [r] + rest;
      (exists i :: 0 <= i < |pages| && LostAt(table, prefix, delimiter, startAfter, maxKeys, pages, i, x)) <==>
        LostOn(table, prefix, delimiter, startAfter, maxKeys, x)
        || (!Shown(r, x)
          && exists i :: 0 <= i < |rest| && LostAt(table, prefix, delimiter, r.next, maxKeys, rest, i, x))
  {
    hide Listed, Page, LostOn, ShownBy, LostAt;
    var r := Listed(table, prefix, delimiter, startAfter, maxKeys);
    var pages := [r] + rest;
    LostAtFirst(table, prefix, delimiter, startAfter, maxKeys, pages, x);
    if i :| 0 <= i < |rest| && LostAt(table, prefix, delimiter, r.next, maxKeys, rest, i, x) {
      LostAtLater(table, prefix, delimiter, startAfter, maxKeys, r, rest, i, x);
    }
    if i :| 0 <= i < |pages| && LostAt(table, prefix, delimiter, startAfter, maxKeys, pages, i, x) {
      if i > 0 { LostAtLater(table, prefix, delimiter, startAfter, maxKeys, r, rest, i - 1, x); }
    }
  }

  lemma LostAtFirst(table: set<string>, prefix: string, delimiter: string, startAfter: string, maxKeys: int,
                    pages: seq<ListResult>, x: Item)
    ensures LostAt(table, prefix, delimiter, startAfter, maxKeys, pages, 0, x) <==>
      LostOn(table, prefix, delimiter, startAfter, maxKeys, x)
  {
    hide LostOn;
    assert pages[..0] == [];
    NoneShown([], x);
  }

  lemma LostAtLater(table: set<string>, prefix: string, delimiter: string, startAfter: string, maxKeys: int,
                    r: ListResult, rest: seq<ListResult>, i: nat, x: Item)
    requires i < |rest|
    ensures LostAt(table, prefix, delimiter, startAfter, maxKeys, [r] + rest, i + 1, x) <==>
      !Shown(r, x) && LostAt(table, prefix, delimiter, r.next, maxKeys, rest, i, x)
  {
    hide LostOn, ShownBy;
    var pages := [r] + rest;
    assert pages[..i + 1] == [r] + rest[..i];
    ShownByStep(r, rest[..i], x);
    assert TokenAt(startAfter, pages, i + 1) == TokenAt(r.next, rest, i);
  }

  // ------------------------------------------------------------ the keys that are not grouped

  function AllObjects(pages: seq<ListResult>): seq<string> {
    if pages == [] then [] else pages[0].objects + AllObjects(pages[1..])
  }

  lemma KeyListed(table: set<string>, prefix: string, delimiter: string, cursor: string, k: string)
    requires ExactPrefix(table, prefix)
    ensures k in KeysIn(Page(table, prefix, delimiter, cursor, 0)) <==>
      k in table && prefix <= k && (cursor == "" || Less(cursor, k)) && ItemOf(prefix, delimiter, k) == Key(k)
  {
    hide Page, ItemOf, KeysIn, GroupsIn;
    CountParts(Page(table, prefix, delimiter, cursor, 0));
    EntriesAfter(table, prefix, delimiter, cursor, Key(k));
    forall l | l in table && prefix <= l && ItemOf(prefix, delimiter, l) == Key(k) ensures l == k {
      KeyIsItself(prefix, delimiter, l, k);
    }
  }

  lemma KeyIsItself(prefix: string, delimiter: string, l: string, k: string)
    requires |prefix| <= |l| && ItemOf(prefix, delimiter, l) == Key(k)
    ensures l == k
  {
  }

  lemma ListedKeysOrdered(table: set<string>, prefix: string, delimiter: string, cursor: string)
    requires ExactPrefix(table, prefix)
    ensures Ordered(KeysIn(Page(table, prefix, delimiter, cursor, 0)))
  {
    hide Rows, Items, KeysIn;
    ExactRows(table, prefix, cursor);
    KeysOrdered(prefix, delimiter, Rows(table, prefix, cursor));
  }

  /** The keys on a truncated page are the first of those listed, and none of them after the token. */
  lemma PageKeysFirst(table: set<string>, prefix: string, delimiter: string, startAfter: string, maxKeys: int)
    requires ExactPrefix(table, prefix) && "" !in table
    requires Listed(table, prefix, delimiter, startAfter, maxKeys).truncated
    ensures var r := Listed(table, prefix, delimiter, startAfter, maxKeys);
      && Ordered(r.objects)
      && (forall k :: k in r.objects ==> k in KeysIn(Page(table, prefix, delimiter, startAfter, 0)))
      && (r.objects != [] ==> r.next == r.objects[|r.objects| - 1])
  {
    hide Rows, Items, KeysIn, GroupsIn, ItemOf;
    var n := Limit(maxKeys);
    TruncatedPage(table, prefix, delimiter, startAfter, maxKeys);
    var rows := Rows(table, prefix, startAfter);
    var all := Items(prefix, delimiter, rows);
    var p := ItemsSplit(prefix, delimiter, rows, n + 1);
    KeysOrdered(prefix, delimiter, rows[..p]);
    CountParts(all[..n + 1]);
    CountParts(all);
    var r := Listed(table, prefix, delimiter, startAfter, maxKeys);
    assert r.objects <= KeysIn(all[..n + 1]);
  }

  lemma OrderedJoin(a: seq<string>, b: seq<string>, m: string)
    requires Ordered(a) && Ordered(b) && (a != [] ==> a[|a| - 1] == m) && forall k :: k in b ==> Less(m, k)
    ensures Ordered(a + b)
  {
    forall i, j | 0 <= i < j < |a + b| ensures Less((a + b)[i], (a + b)[j]) {
      if i < |a| <= j {
        assert b[j - |a|] in b;
        if i < |a| - 1 { LessTransitive(a[i], m, b[j - |a|]); }
      }
    }
  }

  /** A page and what is listed after its token have the keys of the whole between them. */
  lemma KeysGoOn(table: set<string>, prefix: string, delimiter: string, startAfter: string, maxKeys: int)
    requires ExactPrefix(table, prefix) && "" !in table
    requires var r := Listed(table, prefix, delimiter, startAfter, maxKeys);
      r.truncated && Less(startAfter, r.next) && r.next != ""
    ensures var r := Listed(table, prefix, delimiter, startAfter, maxKeys);
      KeysIn(Page(table, prefix, delimiter, startAfter, 0)) ==
        r.objects + KeysIn(Page(table, prefix, delimiter, r.next, 0))
  {
    hide Listed, Page, KeysIn, GroupsIn, ItemOf;
    var r := Listed(table, prefix, delimiter, startAfter, maxKeys);
    var all := Page(table, prefix, delimiter, startAfter, 0);
    var later := Page(table, prefix, delimiter, r.next, 0);
    ListedKeysOrdered(table, prefix, delimiter, startAfter);
    ListedKeysOrdered(table, prefix, delimiter, r.next);
    PageKeysFirst(table, prefix, delimiter, startAfter, maxKeys);
    CountParts(all);
    CountParts(later);
    forall k
      ensures k in KeysIn(later) ==> Less(r.next, k)
      ensures k in KeysIn(all) <==> k in r.objects || k in KeysIn(later)
    {
      KeyListed(table, prefix, delimiter, r.next, k);
      if k in KeysIn(later) { LaterIsListed(table, prefix, delimiter, startAfter, r.next, Key(k)); }
      if k in KeysIn(all) && k !in r.objects && k !in KeysIn(later) {
        LostFirst(table, prefix, delimiter, startAfter, maxKeys, Key(k));
        LostIff(table, prefix, delimiter, startAfter, maxKeys, Key(k));
      }
    }
    OrderedJoin(r.objects, KeysIn(later), r.next);
    OrderedUnique(KeysIn(all), r.objects + KeysIn(later));
  }

  /** By the end a client has been shown every key that is not grouped, once and in order. */
  lemma {:induction false} EveryKeyOnce(table: set<string>, prefix: string, delimiter: string, startAfter: string,
                                        maxKeys: int, n: nat)
    requires ExactPrefix(table, prefix) && "" !in table
    requires Ended(Follow(table, prefix, delimiter, startAfter, maxKeys, n))
    ensures AllObjects(Follow(table, prefix, delimiter, startAfter, maxKeys, n)) ==
      KeysIn(Page(table, prefix, delimiter, startAfter, 0))
    decreases n
  {
    hide Listed, Follow, Ended, Page, KeysIn;
    EndedProceeds(table, prefix, delimiter, startAfter, maxKeys, n);
    FollowOne(table, prefix, delimiter, startAfter, maxKeys, n);
    var r := Listed(table, prefix, delimiter, startAfter, maxKeys);
    var rest := if r.truncated then Follow(table, prefix, delimiter, r.next, maxKeys, n - 1) else [];
    assert ([r] + rest)[1..] == rest;
    if r.truncated {
      KeysGoOn(table, prefix, delimiter, startAfter, maxKeys);
      EveryKeyOnce(table, prefix, delimiter, r.next, maxKeys, n - 1);
    } else {
      WholePage(table, prefix, delimiter, startAfter, maxKeys);
      assert r.objects + [] == r.objects;
    }
  }
}
