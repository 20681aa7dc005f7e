/**
 Moving keys from one prefix to another, one after the other, as the web UI renames a
 folder: what a bucket holds afterwards, when nothing is lost on the way, and when paging
 through the keys while they move does not end.
 */
module KeyMoves {
  import opened GoStrings
  import opened Collections
  import opened Listing

  function NewKey(oldPrefix: string, newPrefix: string, k: string): string {
    newPrefix + TrimPrefix(k, oldPrefix)
  }

  /** A copy and the deletion of the original. */
  function MoveOne<T>(m: map<string, T>, k: string, k': string): map<string, T> {
    if k in m then m[k' := m[k]] - {k} else m
  }

  function MoveAll<T>(m: map<string, T>, ks: seq<string>, oldPrefix: string, newPrefix: string): map<string, T> {
    if ks == [] then m
    else
      var k := ks[|ks| - 1];
      MoveOne(MoveAll(m, ks[..|ks| - 1], oldPrefix, newPrefix), k, NewKey(oldPrefix, newPrefix, k))
  }

  lemma MoveAllNext<T>(m: map<string, T>, ks: seq<string>, i: nat, oldPrefix: string, newPrefix: string)
    requires i < |ks|
    ensures MoveAll(m, ks[..i + 1], oldPrefix, newPrefix) ==
      MoveOne(MoveAll(m, ks[..i], oldPrefix, newPrefix), ks[i], NewKey(oldPrefix, newPrefix, ks[i]))
  {
    assert ks[..i + 1][..i] == ks[..i];
  }

  lemma {:induction false} MoveAllAppend<T>(m: map<string, T>, ks: seq<string>, ls: seq<string>,
                                            oldPrefix: string, newPrefix: string)
    ensures MoveAll(m, ks + ls, oldPrefix, newPrefix) ==
      MoveAll(MoveAll(m, ks, oldPrefix, newPrefix), ls, oldPrefix, newPrefix)
  {
    if ls == [] {
      assert ks + ls == ks;
    } else {
      assert (ks + ls)[..|ks + ls| - 1] == ks + ls[..|ls| - 1];
      MoveAllAppend(m, ks, ls[..|ls| - 1], oldPrefix, newPrefix);
    }
  }

  // ------------------------------------------------------------ when everything arrives

  /** No key is copied onto one that is still to be moved. */
  ghost predicate NoOverwrite(ks: seq<string>, oldPrefix: string, newPrefix: string) {
    forall i, j :: 0 <= i <= j < |ks| ==> NewKey(oldPrefix, newPrefix, ks[i]) != ks[j]
  }

  /** Keys that start with the prefix letter by letter, each once. */
  ghost predicate Movable<T>(m: map<string, T>, ks: seq<string>, oldPrefix: string) {
    Distinct(ks) && forall k :: k in ks ==> k in m && oldPrefix <= k
  }

  lemma NewKeysDiffer(oldPrefix: string, newPrefix: string, k: string, l: string)
    requires oldPrefix <= k && oldPrefix <= l && NewKey(oldPrefix, newPrefix, k) == NewKey(oldPrefix, newPrefix, l)
    ensures k == l
  {
    assert k == oldPrefix + TrimPrefix(k, oldPrefix) && l == oldPrefix + TrimPrefix(l, oldPrefix);
    assert NewKey(oldPrefix, newPrefix, k)[|newPrefix|..] == TrimPrefix(k, oldPrefix);
    assert NewKey(oldPrefix, newPrefix, l)[|newPrefix|..] == TrimPrefix(l, oldPrefix);
  }

  lemma NewKeysAt<T>(m: map<string, T>, ks: seq<string>, i: nat, j: nat, oldPrefix: string, newPrefix: string)
    requires Movable(m, ks, oldPrefix) && i < |ks| && j < |ks|
    ensures ks[i] in m && (NewKey(oldPrefix, newPrefix, ks[i]) == NewKey(oldPrefix, newPrefix, ks[j]) ==> i == j)
    ensures NewKey(oldPrefix, newPrefix, ks[i]) == ks[i] ==> newPrefix == oldPrefix
  {
    assert ks[i] in ks && ks[j] in ks;
    assert ks[i] == oldPrefix + TrimPrefix(ks[i], oldPrefix);
    if NewKey(oldPrefix, newPrefix, ks[i]) == NewKey(oldPrefix, newPrefix, ks[j]) {
      NewKeysDiffer(oldPrefix, newPrefix, ks[i], ks[j]);
    }
    if NewKey(oldPrefix, newPrefix, ks[i]) == ks[i] {
      var n := |TrimPrefix(ks[i], oldPrefix)|;
      assert |newPrefix| == |oldPrefix|;
      assert newPrefix == ks[i][..|newPrefix|] && oldPrefix == ks[i][..|oldPrefix|];
    }
  }

  function KeySet(ks: seq<string>): set<string> {
    set k | k in ks
  }

  function NewKeys(ks: seq<string>, oldPrefix: string, newPrefix: string): set<string> {
    set k | k in ks :: NewKey(oldPrefix, newPrefix, k)
  }

  /** Each key reads under its new name, and all else is as it was. */
  ghost predicate Arrived<T>(m: map<string, T>, m': map<string, T>, ks: seq<string>,
                             oldPrefix: string, newPrefix: string) {
    var news := NewKeys(ks, oldPrefix, newPrefix);
    && m'.Keys == m.Keys - KeySet(ks) + news
    && (forall k :: k in ks ==> k in m && m'[NewKey(oldPrefix, newPrefix, k)] == m[k])
    && (forall k :: k in m && k !in ks && k !in news ==> m'[k] == m[k])
  }

  lemma FrontMovable<T>(m: map<string, T>, ks: seq<string>, oldPrefix: string, newPrefix: string)
    requires Movable(m, ks, oldPrefix) && NoOverwrite(ks, oldPrefix, newPrefix) && ks != []
    ensures var n := |ks| - 1;
      var news := NewKeys(ks[..n], oldPrefix, newPrefix);
      && Movable(m, ks[..n], oldPrefix) && NoOverwrite(ks[..n], oldPrefix, newPrefix)
      && ks[n] in m && ks[n] !in ks[..n] && NewKey(oldPrefix, newPrefix, ks[n]) != ks[n]
      && ks[n] !in news && NewKey(oldPrefix, newPrefix, ks[n]) !in news
  {
    var n := |ks| - 1;
    assert ks[n] in ks && forall k :: k in ks[..n] ==> k in ks;
    forall k | k in ks[..n]
      ensures NewKey(oldPrefix, newPrefix, k) != ks[n]
      ensures NewKey(oldPrefix, newPrefix, k) != NewKey(oldPrefix, newPrefix, ks[n])
    {
      var i :| 0 <= i < n && ks[i] == k;
      if NewKey(oldPrefix, newPrefix, k) == NewKey(oldPrefix, newPrefix, ks[n]) {
        NewKeysDiffer(oldPrefix, newPrefix, k, ks[n]);
      }
    }
  }

  lemma {:induction false} AllArrive<T>(m: map<string, T>, ks: seq<string>, oldPrefix: string, newPrefix: string)
    requires Movable(m, ks, oldPrefix) && NoOverwrite(ks, oldPrefix, newPrefix)
    ensures Arrived(m, MoveAll(m, ks, oldPrefix, newPrefix), ks, oldPrefix, newPrefix)
  {
    hide Arrived, Movable, NoOverwrite, NewKey, NewKeys, MoveOne;
    if ks == [] {
      NothingMoved(m, oldPrefix, newPrefix);
    } else {
      var n := |ks| - 1;
      FrontMovable(m, ks, oldPrefix, newPrefix);
      AllArrive(m, ks[..n], oldPrefix, newPrefix);
      ArrivedNext(m, MoveAll(m, ks[..n], oldPrefix, newPrefix), ks[..n], ks[n], oldPrefix, newPrefix);
      assert ks == ks[..n] + [ks[n]];
    }
  }

  lemma NothingMoved<T>(m: map<string, T>, oldPrefix: string, newPrefix: string)
    ensures Arrived(m, m, [], oldPrefix, newPrefix)
  {
    assert m.Keys - {} + {} == m.Keys;
    assert KeySet([]) == {} && NewKeys([], oldPrefix, newPrefix) == {};
  }

  lemma ArrivedNext<T>(m: map<string, T>, m1: map<string, T>, ks: seq<string>, k: string,
                       oldPrefix: string, newPrefix: string)
    requires Arrived(m, m1, ks, oldPrefix, newPrefix) && k in m && k !in ks
    requires NewKey(oldPrefix, newPrefix, k) != k
    requires k !in NewKeys(ks, oldPrefix, newPrefix)
    requires NewKey(oldPrefix, newPrefix, k) !in NewKeys(ks, oldPrefix, newPrefix)
    ensures Arrived(m, MoveOne(m1, k, NewKey(oldPrefix, newPrefix, k)), ks + [k], oldPrefix, newPrefix)
  {
    var k' := NewKey(oldPrefix, newPrefix, k);
    var news := NewKeys(ks, oldPrefix, newPrefix);
    assert KeySet(ks + [k]) == KeySet(ks) + {k};
    assert NewKeys(ks + [k], oldPrefix, newPrefix) == news + {k'};
    assert m1[k] == m[k];
    var m2 := MoveOne(m1, k, k');
    assert m2.Keys == m.Keys - KeySet(ks + [k]) + (news + {k'});
    forall l | l in ks ensures m2[NewKey(oldPrefix, newPrefix, l)] == m[l] {
      assert NewKey(oldPrefix, newPrefix, l) in news;
    }
  }

  // ------------------------------------------------------------ when something is lost

  /** The contents of one of the first t keys. */
  ghost predicate FromFirst<T>(m: map<string, T>, ks: seq<string>, t: nat, v: T)
    requires t <= |ks| && forall k :: k in ks ==> k in m
  {
    exists x :: 0 <= x < t && m[ks[x]] == v
  }

  /** A key still to be moved holds its own contents or those of a key moved before. */
  lemma {:induction false} StillWaiting<T>(m: map<string, T>, ks: seq<string>, t: nat, y: nat,
                                           oldPrefix: string, newPrefix: string)
    requires Movable(m, ks, oldPrefix) && t <= y < |ks|
    ensures var m' := MoveAll(m, ks[..t], oldPrefix, newPrefix);
      ks[y] in m' && (m'[ks[y]] == m[ks[y]] || FromFirst(m, ks, t, m'[ks[y]]))
  {
    hide MoveAll;
    if t == 0 {
      MoveAllNone(m, ks[..0], oldPrefix, newPrefix);
    } else {
      MoveAllNext(m, ks, t - 1, oldPrefix, newPrefix);
      StillWaiting(m, ks, t - 1, y, oldPrefix, newPrefix);
      StillWaiting(m, ks, t - 1, t - 1, oldPrefix, newPrefix);
    }
  }

  lemma MoveAllNone<T>(m: map<string, T>, ks: seq<string>, oldPrefix: string, newPrefix: string)
    requires ks == []
    ensures MoveAll(m, ks, oldPrefix, newPrefix) == m
  {
  }

  /** Once another key has been copied onto it, its own contents are gone. */
  lemma {:induction false} Overwritten<T>(m: map<string, T>, ks: seq<string>, i: nat, j: nat, t: nat,
                                          oldPrefix: string, newPrefix: string)
    requires Movable(m, ks, oldPrefix) && i < t <= j < |ks| && NewKey(oldPrefix, newPrefix, ks[i]) == ks[j]
    ensures var m' := MoveAll(m, ks[..t], oldPrefix, newPrefix);
      ks[j] in m' && FromFirst(m, ks, t, m'[ks[j]])
  {
    hide MoveAll;
    MoveAllNext(m, ks, t - 1, oldPrefix, newPrefix);
    if t - 1 == i {
      StillWaiting(m, ks, i, i, oldPrefix, newPrefix);
    } else {
      Overwritten(m, ks, i, j, t - 1, oldPrefix, newPrefix);
      NewKeysAt(m, ks, t - 1, i, oldPrefix, newPrefix);
    }
  }

  /** So its new name never gets them. */
  lemma {:induction false} NeverArrives<T>(m: map<string, T>, ks: seq<string>, i: nat, j: nat, t: nat,
                                           oldPrefix: string, newPrefix: string)
    requires Movable(m, ks, oldPrefix) && i < j < t <= |ks| && NewKey(oldPrefix, newPrefix, ks[i]) == ks[j]
    ensures var m' := MoveAll(m, ks[..t], oldPrefix, newPrefix);
      var k' := NewKey(oldPrefix, newPrefix, ks[j]);
      k' in m' ==> FromFirst(m, ks, j, m'[k'])
  {
    hide MoveAll;
    MoveAllNext(m, ks, t - 1, oldPrefix, newPrefix);
    if t - 1 == j {
      Overwritten(m, ks, i, j, j, oldPrefix, newPrefix);
    } else {
      NeverArrives(m, ks, i, j, t - 1, oldPrefix, newPrefix);
      NewKeysAt(m, ks, t - 1, j, oldPrefix, newPrefix);
    }
  }

  lemma NotAllArrive<T>(m: map<string, T>, m': map<string, T>, ks: seq<string>, j: nat,
                        oldPrefix: string, newPrefix: string)
    requires Movable(m, ks, oldPrefix) && j < |ks|
    requires forall x :: 0 <= x < j ==> ks[x] in m && ks[j] in m && m[ks[x]] != m[ks[j]]
    requires var k' := NewKey(oldPrefix, newPrefix, ks[j]); k' in m' ==> FromFirst(m, ks, j, m'[k'])
    ensures !Arrived(m, m', ks, oldPrefix, newPrefix)
  {
    assert ks[j] in ks;
    assert NewKey(oldPrefix, newPrefix, ks[j]) in NewKeys(ks, oldPrefix, newPrefix);
  }

  /** Where no two contents are alike, all of them arrive exactly when none is copied onto a key still to be moved. */
  lemma ArriveIff<T>(m: map<string, T>, ks: seq<string>, oldPrefix: string, newPrefix: string)
    requires Movable(m, ks, oldPrefix) && oldPrefix != newPrefix
    requires forall i, j :: 0 <= i < j < |ks| ==> ks[i] in m && ks[j] in m && m[ks[i]] != m[ks[j]]
    ensures Arrived(m, MoveAll(m, ks, oldPrefix, newPrefix), ks, oldPrefix, newPrefix) <==>
      NoOverwrite(ks, oldPrefix, newPrefix)
  {
    hide MoveAll, Arrived, FromFirst, NewKey, Movable, NoOverwrite;
    if NoOverwrite(ks, oldPrefix, newPrefix) {
      AllArrive(m, ks, oldPrefix, newPrefix);
    } else {
      var i, j := OverwriteAt(ks, oldPrefix, newPrefix);
      NewKeysAt(m, ks, i, i, oldPrefix, newPrefix);
      NeverArrives(m, ks, i, j, |ks|, oldPrefix, newPrefix);
      assert ks[..|ks|] == ks;
      NotAllArrive(m, MoveAll(m, ks, oldPrefix, newPrefix), ks, j, oldPrefix, newPrefix);
    }
  }

  lemma OverwriteAt(ks: seq<string>, oldPrefix: string, newPrefix: string) returns (i: nat, j: nat)
    requires !NoOverwrite(ks, oldPrefix, newPrefix)
    ensures i <= j < |ks| && NewKey(oldPrefix, newPrefix, ks[i]) == ks[j]
  {
    i, j :| 0 <= i <= j < |ks| && NewKey(oldPrefix, newPrefix, ks[i]) == ks[j];
  }

  // ------------------------------------------------------------ when the paging ends

  /** The keys a listing would find under the prefix. */
  function Matching(keys: set<string>, prefix: string): set<string> {
    set k | k in keys && FoldedPrefix(prefix, k)
  }

  /** No key is renamed to one that the old prefix matches. */
  ghost predicate Clear(keys: set<string>, oldPrefix: string, newPrefix: string) {
    forall k :: k in Matching(keys, oldPrefix) ==> !FoldedPrefix(oldPrefix, NewKey(oldPrefix, newPrefix, k))
  }

  /** So it is when neither prefix is a prefix of the other, up to case. */
  lemma ApartIsClear(keys: set<string>, oldPrefix: string, newPrefix: string)
    requires !FoldedPrefix(oldPrefix, newPrefix) && !FoldedPrefix(newPrefix, oldPrefix)
    ensures Clear(keys, oldPrefix, newPrefix)
  {
    forall k ensures !FoldedPrefix(oldPrefix, NewKey(oldPrefix, newPrefix, k)) {
      var newKey := NewKey(oldPrefix, newPrefix, k);
      assert newPrefix <= newKey && FoldedPrefix(newPrefix, newKey);
    }
  }

  /** Then nothing is overwritten on the way. */
  lemma ClearMoves(keys: set<string>, ks: seq<string>, oldPrefix: string, newPrefix: string)
    requires Clear(keys, oldPrefix, newPrefix) && forall k :: k in ks ==> k in Matching(keys, oldPrefix)
    ensures NoOverwrite(ks, oldPrefix, newPrefix)
  {
    forall i, j | 0 <= i <= j < |ks| ensures NewKey(oldPrefix, newPrefix, ks[i]) != ks[j] {
      assert ks[i] in ks && ks[j] in ks;
    }
  }

  /** Under the old prefix, keys only go. */
  lemma {:induction false} ClearLeaves<T>(m: map<string, T>, ks: seq<string>, oldPrefix: string, newPrefix: string)
    requires Clear(m.Keys, oldPrefix, newPrefix) && forall k :: k in ks ==> k in Matching(m.Keys, oldPrefix)
    ensures var m' := MoveAll(m, ks, oldPrefix, newPrefix);
      && Matching(m'.Keys, oldPrefix) == Matching(m.Keys, oldPrefix) - KeySet(ks)
      && forall k :: k in Matching(m'.Keys, oldPrefix) ==> m'[k] == m[k]
  {
    hide FoldedPrefix, NewKey, MoveOne;
    if ks == [] {
      assert KeySet(ks) == {};
    } else {
      var n := |ks| - 1;
      assert forall k :: k in ks[..n] ==> k in ks;
      assert ks == ks[..n] + [ks[n]] && ks[n] in ks;
      assert KeySet(ks) == KeySet(ks[..n]) + {ks[n]};
      ClearLeaves(m, ks[..n], oldPrefix, newPrefix);
      OneLeaves(MoveAll(m, ks[..n], oldPrefix, newPrefix), ks[n], NewKey(oldPrefix, newPrefix, ks[n]), oldPrefix);
    }
  }

  lemma OneLeaves<T>(m: map<string, T>, k: string, k': string, prefix: string)
    requires !FoldedPrefix(prefix, k')
    ensures Matching(MoveOne(m, k, k').Keys, prefix) == Matching(m.Keys, prefix) - {k}
    ensures forall l :: l in Matching(MoveOne(m, k, k').Keys, prefix) ==> l in m && MoveOne(m, k, k')[l] == m[l]
  {
    hide FoldedPrefix;
  }

  /** All keys the prefix matches come after the cursor. */
  ghost predicate AllAhead(keys: set<string>, prefix: string, token: string) {
    token != "" ==> forall k :: k in Matching(keys, prefix) ==> Less(token, k)
  }

  /** A page takes its keys from those the prefix matches, and what is left comes after it. */
  lemma PageTakes(keys: set<string>, prefix: string, token: string)
    requires "" !in keys
    ensures var r := Listed(keys, prefix, "", token, 1000);
      var left := Matching(keys, prefix) - KeySet(r.objects);
      && Distinct(r.objects) && Ordered(r.objects) && (forall k :: k in r.objects ==> k in Matching(keys, prefix))
      && (r.truncated <==> |Rows(keys, prefix, token)| > 1000)
      && (!r.truncated ==> r.objects == Rows(keys, prefix, token))
      && (r.truncated ==> |r.objects| == 1000 && r.next != "")
      && (AllAhead(keys, prefix, token) ==>
        if r.truncated then forall k :: k in left ==> Less(r.next, k) else left == {})
  {
    hide Listed, Rows, FoldedPrefix;
    var rows := Rows(keys, prefix, token);
    var r := Listed(keys, prefix, "", token, 1000);
    RowsAre(keys, prefix, token);
    PageOfKeys(keys, prefix, token, 1000);
    forall i, j | 0 <= i < j < |rows| ensures rows[i] != rows[j] {
      LessAsymmetric(rows[i], rows[j]);
    }
    assert forall k :: k in r.objects ==> k in rows;
    if r.truncated {
      TokenAdvances(keys, prefix, token, 1000);
      assert forall j :: 0 <= j < 1000 ==> r.objects[j] == rows[j];
      forall k | k in rows && k !in r.objects ensures Less(r.next, k) {
        var j :| 0 <= j < |rows| && rows[j] == k;
      }
    }
  }

  /** Where keys only leave the old prefix: those left are the ones not moved yet, and they are ahead. */
  ghost predicate Proceeding(keys: set<string>, now: set<string>, prefix: string, token: string, moved: seq<string>) {
    && Distinct(moved) && (forall k :: k in moved ==> k in Matching(keys, prefix))
    && Matching(now, prefix) == Matching(keys, prefix) - KeySet(moved) && AllAhead(now, prefix, token)
  }

  lemma RenamingStarts(keys: set<string>, prefix: string)
    ensures Proceeding(keys, keys, prefix, "", [])
  {
    assert KeySet([]) == {};
  }

  /** The keys of a page have not been moved before. */
  lemma ProceedingTakes(keys: set<string>, now: set<string>, prefix: string, token: string, moved: seq<string>,
                        done: nat)
    requires Proceeding(keys, now, prefix, token, moved) && "" !in now
    requires done <= |Listed(now, prefix, "", token, 1000).objects|
    ensures var page := Listed(now, prefix, "", token, 1000).objects;
      && Distinct(moved + page[..done]) && (forall k :: k in moved + page[..done] ==> k in Matching(keys, prefix))
      && (done < |page| ==> page[done] in Matching(keys, prefix) && page[done] !in moved + page[..done])
  {
    hide Listed, Matching;
    var page := Listed(now, prefix, "", token, 1000).objects;
    PageTakes(now, prefix, token);
    forall k | k in page ensures k in Matching(keys, prefix) && k !in moved {
      assert k in Matching(now, prefix);
    }
    assert forall k :: k in page[..done] ==> k in page;
    assert forall k :: k in moved + page[..done] <==> k in moved || k in page[..done];
    forall i, j | 0 <= i < j < |moved| + done ensures (moved + page[..done])[i] != (moved + page[..done])[j] {
      assert i < |moved| ==> moved[i] in moved;
      assert j >= |moved| ==> (moved + page[..done])[j] == page[j - |moved|] && page[j - |moved|] in page;
      assert i >= |moved| ==> (moved + page[..done])[i] == page[i - |moved|];
    }
  }

  /** After a page, which it has moved, the rest is as before, or nothing is left. */
  lemma ProceedingNext<T>(keys: set<string>, m: map<string, T>, oldPrefix: string, newPrefix: string, token: string,
                          moved: seq<string>)
    requires Clear(keys, oldPrefix, newPrefix) && Proceeding(keys, m.Keys, oldPrefix, token, moved) && "" !in m
    ensures var page := Listed(m.Keys, oldPrefix, "", token, 1000);
      var moved' := moved + page.objects;
      var m' := MoveAll(m, page.objects, oldPrefix, newPrefix);
      if page.truncated then Proceeding(keys, m'.Keys, oldPrefix, page.next, moved') && |moved'| > |moved|
      else KeySet(moved') == Matching(keys, oldPrefix)
  {
    hide Listed, Matching, NewKey, MoveAll;
    var page := Listed(m.Keys, oldPrefix, "", token, 1000);
    PageTakes(m.Keys, oldPrefix, token);
    ProceedingTakes(keys, m.Keys, oldPrefix, token, moved, |page.objects|);
    assert page.objects[..|page.objects|] == page.objects;
    assert KeySet(moved + page.objects) == KeySet(moved) + KeySet(page.objects);
    assert Clear(m.Keys, oldPrefix, newPrefix);
    ClearLeaves(m, page.objects, oldPrefix, newPrefix);
    if !page.truncated {
      forall k ensures k in KeySet(moved + page.objects) <==> k in Matching(keys, oldPrefix) {
        assert k in Matching(m.Keys, oldPrefix) <==> k in Matching(keys, oldPrefix) && k !in KeySet(moved);
        assert k !in Matching(m.Keys, oldPrefix) - KeySet(page.objects);
      }
    }
  }

  /**
   There is more than a page of keys beyond the cursor, and every one of them is renamed to
   a key beyond them all.
   */
  ghost predicate Chased(keys: set<string>, oldPrefix: string, newPrefix: string, token: string) {
    var rows := Rows(keys, oldPrefix, token);
    && oldPrefix <= newPrefix && |rows| > 1000
    && (forall k :: k in rows ==> oldPrefix <= k)
    && Less(rows[|rows| - 1], NewKey(oldPrefix, newPrefix, rows[0]))
  }

  lemma {:induction false} LessAfterPrefix(p: string, s: string, t: string)
    ensures Less(p + s, p + t) <==> Less(s, t)
  {
    if p == [] {
      assert p + s == s && p + t == t;
    } else {
      assert (p + s)[1..] == p[1..] + s && (p + t)[1..] == p[1..] + t;
      LessIrreflexive(p[..1]);
      LessAfterPrefix(p[1..], s, t);
    }
  }

  /** Renaming keeps the order of keys. */
  lemma NewKeysInOrder(oldPrefix: string, newPrefix: string, k: string, l: string)
    requires oldPrefix <= k && oldPrefix <= l && Less(k, l)
    ensures Less(NewKey(oldPrefix, newPrefix, k), NewKey(oldPrefix, newPrefix, l))
  {
    var s, t := TrimPrefix(k, oldPrefix), TrimPrefix(l, oldPrefix);
    assert k == oldPrefix + s && l == oldPrefix + t;
    LessAfterPrefix(oldPrefix, s, t);
    LessAfterPrefix(newPrefix, s, t);
  }

  /** The rows after the page, and behind them the page's keys again. */
  function NextRows(rows: seq<string>, n: nat, oldPrefix: string, newPrefix: string): seq<string>
    requires n <= |rows|
  {
    rows[n..] + seq(n, i requires 0 <= i < n => NewKey(oldPrefix, newPrefix, rows[i]))
  }

  lemma NextRowsOrdered(rows: seq<string>, n: nat, oldPrefix: string, newPrefix: string)
    requires Ordered(rows) && 0 < n < |rows| && forall k :: k in rows ==> oldPrefix <= k
    requires Less(rows[|rows| - 1], NewKey(oldPrefix, newPrefix, rows[0]))
    ensures var next := NextRows(rows, n, oldPrefix, newPrefix);
      && Ordered(next) && |next| == |rows|
      && Less(next[|next| - 1], NewKey(oldPrefix, newPrefix, next[0]))
  {
    hide NewKey, Less;
    var next := NextRows(rows, n, oldPrefix, newPrefix);
    assert forall i :: 0 <= i < |rows| ==> rows[i] in rows;
    forall i, j | 0 <= i < j < |rows|
      ensures Less(NewKey(oldPrefix, newPrefix, rows[i]), NewKey(oldPrefix, newPrefix, rows[j]))
    {
      NewKeysInOrder(oldPrefix, newPrefix, rows[i], rows[j]);
    }
    forall i, j | 0 <= i < |rows| && 0 <= j < n
      ensures Less(rows[i], NewKey(oldPrefix, newPrefix, rows[j]))
    {
      BeyondAll(rows, i, j, oldPrefix, newPrefix);
    }
  }

  lemma BeyondAll(rows: seq<string>, i: nat, j: nat, oldPrefix: string, newPrefix: string)
    requires Ordered(rows) && i < |rows| && j < |rows| && forall k :: k in rows ==> oldPrefix <= k
    requires Less(rows[|rows| - 1], NewKey(oldPrefix, newPrefix, rows[0]))
    ensures Less(rows[i], NewKey(oldPrefix, newPrefix, rows[j]))
  {
    hide NewKey;
    var last, first := rows[|rows| - 1], NewKey(oldPrefix, newPrefix, rows[0]);
    assert rows[0] in rows && rows[j] in rows;
    if i < |rows| - 1 { LessTransitive(rows[i], last, first); }
    if j > 0 {
      NewKeysInOrder(oldPrefix, newPrefix, rows[0], rows[j]);
      LessTransitive(rows[i], first, NewKey(oldPrefix, newPrefix, rows[j]));
    }
  }

  /** A page of such keys can be moved without loss. */
  lemma ChasedPage<T>(m: map<string, T>, oldPrefix: string, newPrefix: string, token: string)
    requires Chased(m.Keys, oldPrefix, newPrefix, token)
    ensures var rows := Rows(m.Keys, oldPrefix, token);
      var r := Listed(m.Keys, oldPrefix, "", token, 1000);
      && r.truncated && r.objects == rows[..1000] && r.next == rows[999] && r.next != ""
      && Ordered(rows) && Movable(m, r.objects, oldPrefix) && NoOverwrite(r.objects, oldPrefix, newPrefix)
  {
    hide NewKey, Less, Rows, Listed;
    var rows := Rows(m.Keys, oldPrefix, token);
    RowsAre(m.Keys, oldPrefix, token);
    PageOfKeys(m.Keys, oldPrefix, token, 1000);
    assert rows[998] in rows && rows[999] in rows && Less(rows[998], rows[999]);
    NotEmpty(rows[998], rows[999]);
    forall i, j | 0 <= i < j < |rows| ensures rows[i] != rows[j] {
      LessAsymmetric(rows[i], rows[j]);
    }
    forall i, j | 0 <= i <= j < 1000 ensures NewKey(oldPrefix, newPrefix, rows[i]) != rows[j] {
      BeyondAll(rows, j, i, oldPrefix, newPrefix);
      LessIrreflexive(rows[j]);
    }
    assert forall k :: k in rows[..1000] ==> k in rows;
  }

  lemma NotEmpty(k: string, l: string)
    requires Less(k, l)
    ensures l != ""
  {
  }

  lemma NextRowsAre(rows: seq<string>, n: nat, oldPrefix: string, newPrefix: string)
    requires n <= |rows|
    ensures forall k :: k in NextRows(rows, n, oldPrefix, newPrefix) <==>
      k in rows[n..] || k in NewKeys(rows[..n], oldPrefix, newPrefix)
  {
    var next := NextRows(rows, n, oldPrefix, newPrefix);
    var moved := seq(n, i requires 0 <= i < n => NewKey(oldPrefix, newPrefix, rows[i]));
    assert next == rows[n..] + moved;
    forall k | k in moved ensures k in NewKeys(rows[..n], oldPrefix, newPrefix) {
      var i :| 0 <= i < n && moved[i] == k;
      assert rows[..n][i] in rows[..n];
    }
    forall k | k in NewKeys(rows[..n], oldPrefix, newPrefix) ensures k in moved {
      var l :| l in rows[..n] && NewKey(oldPrefix, newPrefix, l) == k;
      var i :| 0 <= i < n && rows[..n][i] == l;
      assert moved[i] == k;
    }
  }

  /** The rows of a listing beyond one of its rows. */
  lemma RowsBeyond(keys: set<string>, prefix: string, token: string, rows: seq<string>, n: nat, k: string)
    requires Ordered(rows) && n < |rows|
    requires forall x :: x in rows <==> x in keys && FoldedPrefix(prefix, x) && (token == "" || Less(token, x))
    ensures k in rows[n + 1..] <==> k in keys && FoldedPrefix(prefix, k) && Less(rows[n], k)
    ensures k in rows[n + 1..] ==> k !in rows[..n + 1]
  {
    hide FoldedPrefix;
    assert rows[n] in rows;
    if k in rows[n + 1..] {
      var j :| n < j < |rows| && rows[j] == k;
      assert k in rows;
      forall x | 0 <= x <= n ensures rows[x] != k {
        LessAsymmetric(rows[x], rows[j]);
      }
    }
    if k in keys && FoldedPrefix(prefix, k) && Less(rows[n], k) {
      if token != "" { LessTransitive(token, rows[n], k); }
      var j :| 0 <= j < |rows| && rows[j] == k;
      if j < n { LessAsymmetric(rows[j], rows[n]); }
      if j == n { LessIrreflexive(k); }
      assert rows[n + 1..][j - n - 1] == k;
    }
  }

  lemma NewKeysBeyond(rows: seq<string>, n: nat, oldPrefix: string, newPrefix: string, k: string)
    requires Ordered(rows) && n < |rows| && oldPrefix <= newPrefix && forall x :: x in rows ==> oldPrefix <= x
    requires Less(rows[|rows| - 1], NewKey(oldPrefix, newPrefix, rows[0]))
    requires k in NewKeys(rows[..n + 1], oldPrefix, newPrefix)
    ensures oldPrefix <= k && FoldedPrefix(oldPrefix, k) && Less(rows[n], k)
  {
    var l :| l in rows[..n + 1] && NewKey(oldPrefix, newPrefix, l) == k;
    var i :| 0 <= i <= n && rows[..n + 1][i] == l;
    BeyondAll(rows, n, i, oldPrefix, newPrefix);
    assert newPrefix <= k;
  }

  /** After such a page there is another one: the loop never ends. */
  lemma ChasedNext<T>(m: map<string, T>, oldPrefix: string, newPrefix: string, token: string)
    requires Chased(m.Keys, oldPrefix, newPrefix, token)
    ensures var r := Listed(m.Keys, oldPrefix, "", token, 1000);
      && r.truncated && r.next != ""
      && Chased(MoveAll(m, r.objects, oldPrefix, newPrefix).Keys, oldPrefix, newPrefix, r.next)
  {
    hide NewKey, Less, Rows, Listed, MoveAll, FoldedPrefix, NextRows, NewKeys, Movable, NoOverwrite;
    var rows := Rows(m.Keys, oldPrefix, token);
    var page := rows[..1000];
    var keys' := MoveAll(m, page, oldPrefix, newPrefix).Keys;
    var news := NewKeys(page, oldPrefix, newPrefix);
    var next := NextRows(rows, 1000, oldPrefix, newPrefix);
    ChasedPage(m, oldPrefix, newPrefix, token);
    AllArrive(m, page, oldPrefix, newPrefix);
    RowsAre(m.Keys, oldPrefix, token);
    RowsAre(keys', oldPrefix, rows[999]);
    NextRowsOrdered(rows, 1000, oldPrefix, newPrefix);
    NextRowsAre(rows, 1000, oldPrefix, newPrefix);
    forall k
      ensures k in next ==> oldPrefix <= k
      ensures k in next <==> k in keys' && FoldedPrefix(oldPrefix, k) && Less(rows[999], k)
    {
      RowsBeyond(m.Keys, oldPrefix, token, rows, 999, k);
      if k in news { NewKeysBeyond(rows, 999, oldPrefix, newPrefix, k); }
      assert k in rows[1000..] ==> k in rows;
    }
    OrderedUnique(Rows(keys', oldPrefix, rows[999]), next);
  }

  function Letters(n: nat): string {
    seq(n, _ => 'x')
  }

  /** A folder "a/" with this many keys. */
  function Folder(n: nat): seq<string> {
    seq(n, i requires 0 <= i < n => "a/" + Letters(i + 1))
  }

  lemma {:induction false} LettersInOrder(m: nat, n: nat)
    requires m < n
    ensures Less(Letters(m), Letters(n))
  {
    if m > 0 {
      assert Letters(m)[1..] == Letters(m - 1) && Letters(n)[1..] == Letters(n - 1);
      LettersInOrder(m - 1, n - 1);
    }
  }

  /** So it goes when a folder of 1001 keys or more is moved into a folder of its own. */
  lemma FolderIsChased(n: nat)
    requires n > 1000
    ensures Chased(KeySet(Folder(n)), "a/", "a/y/", "")
  {
    hide NewKey;
    var rows := Folder(n);
    forall i, j | 0 <= i < j < n ensures Less(rows[i], rows[j]) {
      LettersInOrder(i + 1, j + 1);
      LessAfterPrefix("a/", Letters(i + 1), Letters(j + 1));
    }
    forall k | k in rows ensures "a/" <= k && FoldedPrefix("a/", k) {
      var i :| 0 <= i < n && rows[i] == k;
    }
    RowsAre(KeySet(rows), "a/", "");
    OrderedUnique(Rows(KeySet(rows), "a/", ""), rows);
    LastBeforeFirst(n);
  }

  lemma LastBeforeFirst(n: nat)
    requires n > 0
    ensures Less(Folder(n)[n - 1], NewKey("a/", "a/y/", Folder(n)[0]))
  {
    assert TrimPrefix("a/" + Letters(1), "a/") == Letters(1);
    assert "a/y/" + Letters(1) == "a/" + ("y/" + Letters(1));
    LessAfterPrefix("a/", Letters(n), "y/" + Letters(1));
  }
}
