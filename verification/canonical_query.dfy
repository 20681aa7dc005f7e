/**
 The canonical query string of AWS Signature Version 4.  Percent-encoding follows
 RFC 3986, sections 2.1 and 2.3.
 */
module CanonicalQuery {
  import opened GoStrings
  import opened Collections

  // ------------------------------------------------------------ uriEncode

  predicate IsUnreserved(c: char) {
    'A' <= c <= 'Z' || 'a' <= c <= 'z' || '0' <= c <= '9' || c == '-' || c == '_' || c == '.' || c == '~'
  }

  predicate IsByte(c: char) {
    c < 256 as char
  }

  predicate IsBytes(s: string) {
    forall i :: 0 <= i < |s| ==> IsByte(s[i])
  }

  /** One hexadecimal digit, upper case. */
  function Hex(d: nat): (c: char)
    requires d < 16
    ensures '0' <= c <= '9' || 'A' <= c <= 'F'
  {
    if d < 10 then '0' + d as char else 'A' + (d - 10) as char
  }

  /** %%%02X */
  function Escape(c: char): (r: string)
    requires IsByte(c)
    ensures |r| == 3 && r[0] == '%'
  {
    var n := c as int;
    ['%', Hex(n / 16), Hex(n % 16)]
  }

  lemma HexInjective(m: nat, n: nat)
    requires m < 16 && n < 16 && Hex(m) == Hex(n)
    ensures m == n
  {
  }

  lemma EscapeInjective(c: char, d: char)
    requires IsByte(c) && IsByte(d) && Escape(c) == Escape(d)
    ensures c == d
  {
    var m, n := c as int, d as int;
    assert Escape(c)[1] == Escape(d)[1] && Escape(c)[2] == Escape(d)[2];
    HexInjective(m / 16, n / 16);
    HexInjective(m % 16, n % 16);
    assert m == 16 * (m / 16) + m % 16 && n == 16 * (n / 16) + n % 16;
  }

  function EncodeChar(c: char): string
    requires IsByte(c)
  {
    if IsUnreserved(c) then [c] else Escape(c)
  }

  function Encoded(s: string): string
    requires IsBytes(s)
  {
    if s == [] then [] else EncodeChar(s[0]) + Encoded(s[1..])
  }

  lemma {:induction false} EncodedAppend(s: string, c: char)
    requires IsBytes(s) && IsByte(c)
    ensures IsBytes(s + [c]) && Encoded(s + [c]) == Encoded(s) + EncodeChar(c)
  {
    if s == [] {
      assert s + [c] == [c];
    } else {
      assert (s + [c])[1..] == s[1..] + [c];
      EncodedAppend(s[1..], c);
    }
  }

  method UriEncode(s: string) returns (out: string)
    requires IsBytes(s)
    ensures out == Encoded(s)
  {
    out := [];
    for i := 0 to |s|
      invariant out == Encoded(s[..i])
    {
      assert s[..i + 1] == s[..i] + [s[i]];
      EncodedAppend(s[..i], s[i]);
      if IsUnreserved(s[i]) {
        out := out + [s[i]];
      } else {
        out := out + Escape(s[i]);
      }
    }
    assert s[..|s|] == s;
  }

  /** The separators of the query string never come out of an encoding. */
  lemma {:induction false} NoSeparators(s: string)
    requires IsBytes(s)
    ensures '&' !in Encoded(s) && '=' !in Encoded(s)
  {
    if s != [] {
      NoSeparators(s[1..]);
      assert '&' !in EncodeChar(s[0]) && '=' !in EncodeChar(s[0]);
    }
  }

  lemma {:induction false} EncodedInjective(s: string, t: string)
    requires IsBytes(s) && IsBytes(t) && Encoded(s) == Encoded(t)
    ensures s == t
  {
    if s != [] && t != [] {
      var a, b := EncodeChar(s[0]), EncodeChar(t[0]);
      var x := Encoded(s);
      assert x[0] == a[0] == b[0];
      assert |a| == |b|;
      assert x[..|a|] == a && x[..|a|] == b;
      if !IsUnreserved(s[0]) { EscapeInjective(s[0], t[0]); }
      assert x[|a|..] == Encoded(s[1..]) && x[|a|..] == Encoded(t[1..]);
      EncodedInjective(s[1..], t[1..]);
      assert s == [s[0]] + s[1..] && t == [t[0]] + t[1..];
    }
  }

  // ------------------------------------------------------------ sort.Strings

  predicate Ascending(s: seq<string>) {
    forall i, j :: 0 <= i < j < |s| ==> AtMost(s[i], s[j])
  }

  function Insert(x: string, s: seq<string>): (r: seq<string>)
    ensures multiset(r) == multiset{x} + multiset(s)
  {
    if s == [] || AtMost(x, s[0]) then [x] + s
    else
      assert s == [s[0]] + s[1..];
      [s[0]] + Insert(x, s[1..])
  }

  function SortStrings(s: seq<string>): (r: seq<string>)
    ensures multiset(r) == multiset(s)
  {
    if s == [] then []
    else
      assert s == [s[0]] + s[1..];
      Insert(s[0], SortStrings(s[1..]))
  }

  lemma AtMostTransitive(a: string, b: string, c: string)
    requires AtMost(a, b) && AtMost(b, c)
    ensures AtMost(a, c)
  {
    if a != b && b != c { LessTransitive(a, b, c); }
  }

  lemma {:induction false} InsertAscending(x: string, s: seq<string>)
    requires Ascending(s)
    ensures Ascending(Insert(x, s))
  {
    if s == [] {
    } else if AtMost(x, s[0]) {
      forall i | 0 <= i < |s| ensures AtMost(x, s[i]) {
        if i > 0 { AtMostTransitive(x, s[0], s[i]); }
      }
    } else {
      LessTotal(x, s[0]);
      InsertAscending(x, s[1..]);
      var r := Insert(x, s[1..]);
      forall i | 0 <= i < |r| ensures AtMost(s[0], r[i]) {
        assert r[i] in multiset(r);
        assert r[i] == x || r[i] in s[1..];
      }
    }
  }

  lemma {:induction false} SortAscending(s: seq<string>)
    ensures Ascending(SortStrings(s))
  {
    if s != [] {
      SortAscending(s[1..]);
      InsertAscending(s[0], SortStrings(s[1..]));
    }
  }

  // ------------------------------------------------------------ the query string

  /** Parameter names with all values given for them. */
  type Query = map<string, seq<string>>

  type Pair = (string, string)

  function Count(q: Query, k: string, v: string): nat {
    if k in q then multiset(q[k])[v] else 0
  }

  /** Same parameters the same number of times, in whatever order they came. */
  ghost predicate SamePairs(q: Query, q': Query) {
    forall k, v :: Count(q, k, v) == Count(q', k, v)
  }

  predicate PairAtMost(a: Pair, b: Pair) {
    Less(a.0, b.0) || (a.0 == b.0 && AtMost(a.1, b.1))
  }

  ghost predicate PairsAscending(s: seq<Pair>) {
    forall i, j :: 0 <= i < j < |s| ==> PairAtMost(s[i], s[j])
  }

  predicate PairIsBytes(p: Pair) {
    IsBytes(p.0) && IsBytes(p.1)
  }

  predicate AllBytes(s: seq<Pair>) {
    forall i :: 0 <= i < |s| ==> PairIsBytes(s[i])
  }

  function Part(p: Pair): string
    requires PairIsBytes(p)
  {
    Encoded(p.0) + "=" + Encoded(p.1)
  }

  function Parts(s: seq<Pair>): seq<string>
    requires AllBytes(s)
  {
    seq(|s|, i requires 0 <= i < |s| => Part(s[i]))
  }

  /** strings.Join(parts, "&") */
  function Join(parts: seq<string>): string {
    if parts == [] then ""
    else if |parts| == 1 then parts[0]
    else parts[0] + "&" + Join(parts[1..])
  }

  /** The pairs of a query in canonical order. */
  ghost predicate IsListing(q: Query, s: seq<Pair>) {
    AllBytes(s) && PairsAscending(s) && forall k, v :: multiset(s)[(k, v)] == Count(q, k, v)
  }

  /** The query's pairs, in canonical order, spelt out one after the other. */
  method BuildCanonicalQueryString(q: Query) returns (r: string)
    requires forall k :: k in q ==> IsBytes(k) && forall v :: v in q[k] ==> IsBytes(v)
    ensures exists pairs :: IsListing(q, pairs) && r == Join(Parts(pairs))
  {
    hide Listed, Ascending, Join, SortStrings, Encoded, IsBytes;
    ghost var pairs: seq<Pair> := [];
    NothingListed(q);
    if |q| == 0 {
      return "";
    }
    var keys := SortedKeys(q);
    StartListing(q, keys);
    var parts: seq<string> := [];
    for i := 0 to |keys|
      invariant Listed(q, keys, i, [], pairs) && AllBytes(pairs) && parts == Parts(pairs)
    {
      var k := keys[i];
      assert k in q;
      var vals := SortStrings(q[k]);
      SortAscending(q[k]);
      assert vals[..0] == [];
      for j := 0 to |vals|
        invariant Listed(q, keys, i, vals[..j], pairs) && AllBytes(pairs) && parts == Parts(pairs)
      {
        assert vals[j] in multiset(vals) && vals[j] in q[k];
        var ek := UriEncode(k);
        var ev := UriEncode(vals[j]);
        ListedNext(q, keys, i, vals, j, pairs);
        assert Parts(pairs + [(k, vals[j])]) == Parts(pairs) + [Part((k, vals[j]))];
        parts := parts + [ek + "=" + ev];
        pairs := pairs + [(k, vals[j])];
      }
      assert vals[..|vals|] == vals;
      ListedKey(q, keys, i, vals, pairs);
    }
    FinishListing(q, keys, pairs);
    r := Join(parts);
    assert IsListing(q, pairs) && r == Join(Parts(pairs));
  }

  lemma NothingListed(q: Query)
    ensures |q| == 0 ==> IsListing(q, []) && Join(Parts([])) == ""
  {
    assert |q| == 0 ==> forall k, v :: Count(q, k, v) == 0;
  }

  lemma StartListing(q: Query, keys: seq<string>)
    ensures Listed(q, keys, 0, [], [])
  {
  }

  lemma FinishListing(q: Query, keys: seq<string>, pairs: seq<Pair>)
    requires (forall k :: k in keys <==> k in q) && Listed(q, keys, |keys|, [], pairs)
    ensures IsListing(q, pairs)
  {
    assert keys[..|keys|] == keys;
  }

  method SortedKeys(q: Query) returns (keys: seq<string>)
    ensures Ascending(keys) && forall k :: multiset(keys)[k] == if k in q then 1 else 0
    ensures forall k :: k in keys <==> k in q
  {
    var left := q.Keys;
    keys := [];
    while left != {}
      invariant left <= q.Keys
      invariant forall k :: multiset(keys)[k] == if k in q && k !in left then 1 else 0
      decreases |left|
    {
      var k := Any(left);
      keys := keys + [k];
      left := left - {k};
    }
    SortAscending(keys);
    keys := SortStrings(keys);
    assert forall k :: k in keys <==> k in multiset(keys);
  }

  /** All pairs of the first i keys, and these values of the next one, are listed. */
  ghost predicate Listed(q: Query, keys: seq<string>, i: nat, vals: seq<string>, pairs: seq<Pair>)
    requires i <= |keys|
  {
    && AllBytes(pairs) && PairsAscending(pairs)
    && forall k, v :: multiset(pairs)[(k, v)] ==
        (if k in keys[..i] then Count(q, k, v) else 0) + (if i < |keys| && k == keys[i] then multiset(vals)[v] else 0)
  }

  lemma KeyAfter(keys: seq<string>, i: nat, k: string)
    requires Ascending(keys) && i < |keys| && (forall x :: multiset(keys)[x] <= 1) && k in keys[..i]
    ensures Less(k, keys[i])
  {
    var j :| 0 <= j < i && keys[..i][j] == k;
    assert AtMost(keys[j], keys[i]);
    OccursOnce(keys, j, i);
  }

  lemma OccursOnce(keys: seq<string>, j: nat, i: nat)
    requires j < i < |keys| && multiset(keys)[keys[i]] <= 1
    ensures keys[j] != keys[i]
  {
    assert keys == keys[..i] + [keys[i]] + keys[i + 1..];
    assert multiset(keys)[keys[i]] == multiset(keys[..i])[keys[i]] + 1 + multiset(keys[i + 1..])[keys[i]];
    assert keys[j] in keys[..i];
    assert multiset(keys[..i])[keys[j]] > 0;
  }

  lemma ListedNext(q: Query, keys: seq<string>, i: nat, vals: seq<string>, j: nat, pairs: seq<Pair>)
    requires Ascending(keys) && i < |keys| && (forall x :: multiset(keys)[x] <= 1)
    requires Ascending(vals) && j < |vals| && Listed(q, keys, i, vals[..j], pairs)
    requires IsBytes(keys[i]) && IsBytes(vals[j])
    ensures Listed(q, keys, i, vals[..j + 1], pairs + [(keys[i], vals[j])])
  {
    var last := (keys[i], vals[j]);
    forall n | 0 <= n < |pairs|
      ensures PairAtMost(pairs[n], last)
    {
      var (k, v) := pairs[n];
      assert multiset(pairs)[(k, v)] > 0;
      if k in keys[..i] {
        KeyAfter(keys, i, k);
      } else {
        assert k == keys[i] && v in multiset(vals[..j]);
        var m :| 0 <= m < j && vals[..j][m] == v;
        assert AtMost(vals[m], vals[j]);
      }
    }
    assert vals[..j + 1] == vals[..j] + [vals[j]];
  }

  lemma ListedKey(q: Query, keys: seq<string>, i: nat, vals: seq<string>, pairs: seq<Pair>)
    requires Ascending(keys) && i < |keys| && (forall x :: multiset(keys)[x] <= 1) && keys[i] in q
    requires multiset(vals) == multiset(q[keys[i]]) && Listed(q, keys, i, vals, pairs)
    ensures Listed(q, keys, i + 1, [], pairs)
  {
    forall j | 0 <= j < i ensures keys[j] != keys[i] {
      OccursOnce(keys, j, i);
    }
    assert keys[..i + 1] == keys[..i] + [keys[i]];
  }

  // ------------------------------------------------------------ what it determines

  lemma PairsAntisymmetric(a: Pair, b: Pair)
    requires PairAtMost(a, b) && PairAtMost(b, a)
    ensures a == b
  {
    LessIrreflexive(a.0);
    if Less(a.0, b.0) { LessAsymmetric(a.0, b.0); }
    if Less(b.0, a.0) { LessAsymmetric(b.0, a.0); }
    if Less(a.1, b.1) { LessAsymmetric(a.1, b.1); }
  }

  /** The canonical order of a collection of pairs is unique. */
  lemma {:induction false} ListingUnique(s: seq<Pair>, t: seq<Pair>)
    requires PairsAscending(s) && PairsAscending(t) && multiset(s) == multiset(t)
    ensures s == t
  {
    hide PairsAscending, PairAtMost;
    assert |multiset(s)| == |s| && |multiset(t)| == |t|;
    if s != [] {
      SameFirstPair(s, t);
      WithoutFirst(s);
      WithoutFirst(t);
      ListingUnique(s[1..], t[1..]);
      assert s == [s[0]] + s[1..] && t == [t[0]] + t[1..];
    }
  }

  lemma SameFirstPair(s: seq<Pair>, t: seq<Pair>)
    requires PairsAscending(s) && PairsAscending(t) && multiset(s) == multiset(t) && s != [] && t != []
    ensures s[0] == t[0]
  {
    hide PairsAscending, PairAtMost;
    assert s[0] in multiset(s) && t[0] in multiset(t);
    assert s[0] in t && t[0] in s;
    LeastFirst(s, t[0]);
    LeastFirst(t, s[0]);
    if s[0] != t[0] { PairsAntisymmetric(s[0], t[0]); }
  }

  lemma WithoutFirst(s: seq<Pair>)
    requires PairsAscending(s) && s != []
    ensures PairsAscending(s[1..]) && multiset(s[1..]) == multiset(s) - multiset{s[0]}
  {
    hide PairAtMost;
    assert s == [s[0]] + s[1..];
  }

  lemma LeastFirst(s: seq<Pair>, p: Pair)
    requires PairsAscending(s) && p in s
    ensures s[0] == p || PairAtMost(s[0], p)
  {
  }

  lemma PartShape(p: Pair)
    requires PairIsBytes(p)
    ensures '&' !in Part(p) && Part(p) != ""
    ensures Index(Part(p), "=") == |Encoded(p.0)|
  {
    NoSeparators(p.0);
    NoSeparators(p.1);
    IndexOfFirst(Encoded(p.0), '=', Encoded(p.1));
    assert Encoded(p.0) + ['='] + Encoded(p.1) == Part(p);
  }

  lemma PartInjective(a: Pair, b: Pair)
    requires PairIsBytes(a) && PairIsBytes(b) && Part(a) == Part(b)
    ensures a == b
  {
    PartShape(a);
    PartShape(b);
    var n := |Encoded(a.0)|;
    assert Part(a)[..n] == Encoded(a.0) && Part(b)[..n] == Encoded(b.0);
    assert Part(a)[n + 1..] == Encoded(a.1) && Part(b)[n + 1..] == Encoded(b.1);
    EncodedInjective(a.0, b.0);
    EncodedInjective(a.1, b.1);
  }

  ghost predicate Joinable(parts: seq<string>) {
    forall i :: 0 <= i < |parts| ==> parts[i] != "" && '&' !in parts[i]
  }

  /** Joining loses nothing when no part is empty or contains the separator. */
  lemma {:induction false} JoinInjective(s: seq<string>, t: seq<string>)
    requires Joinable(s) && Joinable(t) && Join(s) == Join(t)
    ensures s == t
    decreases |s|
  {
    JoinShape(s);
    JoinShape(t);
    if s != [] && t != [] {
      var i := Index(Join(s), "&");
      if i >= 0 {
        assert s[0] == Join(s)[..i] == t[0];
        assert Join(s[1..]) == Join(s)[i + 1..] == Join(t[1..]);
        JoinInjective(s[1..], t[1..]);
      }
      assert s == [s[0]] + s[1..] && t == [t[0]] + t[1..];
    }
  }

  lemma JoinShape(s: seq<string>)
    requires Joinable(s)
    ensures s == [] <==> Join(s) == ""
    ensures |s| == 1 ==> Index(Join(s), "&") == -1 && Join(s) == s[0]
    ensures |s| > 1 ==>
      var i := Index(Join(s), "&"); i == |s[0]| && Join(s)[..i] == s[0] && Join(s)[i + 1..] == Join(s[1..])
  {
    if |s| == 1 {
      IndexOfAbsent(s[0], '&');
    } else if |s| > 1 {
      IndexOfFirst(s[0], '&', Join(s[1..]));
      assert s[0] + ['&'] + Join(s[1..]) == Join(s);
    }
  }

  lemma {:induction false} PartsInjective(s: seq<Pair>, t: seq<Pair>)
    requires AllBytes(s) && AllBytes(t) && Parts(s) == Parts(t)
    ensures s == t
  {
    assert |s| == |Parts(s)| == |Parts(t)| == |t|;
    forall i | 0 <= i < |s| ensures s[i] == t[i] {
      assert Parts(s)[i] == Part(s[i]) && Parts(t)[i] == Part(t[i]);
      PartInjective(s[i], t[i]);
    }
  }

  /**
   Two queries have the same canonical string exactly when they have the same pairs: the
   order in which parameters came does not matter, and nothing else is lost.
   */
  lemma CanonicalIff(q: Query, s: seq<Pair>, q': Query, s': seq<Pair>)
    requires IsListing(q, s) && IsListing(q', s')
    ensures Join(Parts(s)) == Join(Parts(s')) <==> SamePairs(q, q')
  {
    if SamePairs(q, q') {
      forall p: Pair ensures multiset(s)[p] == multiset(s')[p] {
        assert p == (p.0, p.1);
      }
      ListingUnique(s, s');
    }
    if Join(Parts(s)) == Join(Parts(s')) {
      forall i | 0 <= i < |s| ensures Parts(s)[i] != "" && '&' !in Parts(s)[i] {
        PartShape(s[i]);
      }
      forall i | 0 <= i < |s'| ensures Parts(s')[i] != "" && '&' !in Parts(s')[i] {
        PartShape(s'[i]);
      }
      JoinInjective(Parts(s), Parts(s'));
      PartsInjective(s, s');
    }
  }
}
