/** Lists without repetitions, and picking from a set. */
module Collections {

  /** Some element of a set: the order in which Go walks a map is not specified either. */
  method Any<T(==)>(s: set<T>) returns (x: T)
    requires s != {}
    ensures x in s
  {
    x :| x in s;
  }

  ghost predicate Distinct<T>(s: seq<T>) {
    forall i, j :: 0 <= i < j < |s| ==> s[i] != s[j]
  }

  lemma {:induction false} DistinctSize<T>(ks: seq<T>, s: set<T>)
    requires Distinct(ks) && forall k :: k in ks ==> k in s
    ensures |ks| <= |s|
  {
    if ks != [] {
      var n := |ks| - 1;
      assert ks[n] in ks && forall k :: k in ks[..n] ==> k in ks;
      DistinctSize(ks[..n], s - {ks[n]});
    }
  }

  function Without<T(==)>(s: seq<T>, x: T): seq<T> {
    if s == [] then [] else (if s[0] == x then [] else [s[0]]) + Without(s[1..], x)
  }

  lemma DistinctCons<T>(x: T, s: seq<T>)
    requires x !in s && Distinct(s)
    ensures Distinct([x] + s)
  {
  }

  lemma {:induction false} WithoutAbsent<T>(s: seq<T>, x: T)
    requires x !in s
    ensures Without(s, x) == s
  {
    if s != [] {
      WithoutAbsent(s[1..], x);
      assert s == [s[0]] + s[1..];
    }
  }

  lemma {:induction false} WithoutAt<T>(s: seq<T>, i: nat)
    requires Distinct(s) && i < |s|
    ensures Without(s, s[i]) == s[..i] + s[i + 1..]
  {
    if i == 0 {
      WithoutAbsent(s[1..], s[0]);
    } else {
      WithoutAt(s[1..], i - 1);
      assert s[1..][..i - 1] == s[1..i] && s[1..][i..] == s[i + 1..];
      assert s[..i] == [s[0]] + s[1..i];
    }
  }

  lemma {:induction false} WithoutMembers<T>(s: seq<T>, x: T)
    ensures forall y :: y in Without(s, x) <==> y in s && y != x
    ensures |Without(s, x)| <= |s|
    ensures Distinct(s) ==> Distinct(Without(s, x))
  {
    if s != [] {
      WithoutMembers(s[1..], x);
      assert s == [s[0]] + s[1..];
      if Distinct(s) {
        DistinctCons(s[0], Without(s[1..], x));
      }
    }
  }

  lemma {:induction false} WithoutAppend<T>(s: seq<T>, u: seq<T>, x: T)
    ensures Without(s + u, x) == Without(s, x) + Without(u, x)
  {
    if s == [] {
      assert s + u == u;
    } else {
      assert (s + u)[1..] == s[1..] + u;
      WithoutAppend(s[1..], u, x);
    }
  }

  lemma WithoutLength<T>(s: seq<T>, x: T)
    requires Distinct(s)
    ensures |Without(s, x)| == |s| - if x in s then 1 else 0
  {
    if x in s {
      var i :| 0 <= i < |s| && s[i] == x;
      WithoutAt(s, i);
    } else {
      WithoutAbsent(s, x);
    }
  }
}
