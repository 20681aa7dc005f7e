/**
 The few functions of Go's `strings` package and the byte order of Go strings that
 the rest of the model relies on.  A Go string or byte slice is a Dafny string in
 which one character stands for one byte.
 */
module GoStrings {

  type Bytes = string

  /** strings.TrimPrefix */
  function TrimPrefix(s: string, p: string): string {
    if p <= s then s[|p|..] else s
  }

  /** The UTF-8 encoding of one character for which unicode.IsSpace holds. */
  predicate IsSpace(s: Bytes) {
    match |s|
    case 1 => s[0] == ' ' || '\t' <= s[0] <= '\r'
    case 2 => s == "\U{C2}\U{85}" || s == "\U{C2}\U{A0}"
    case 3 =>
      || s == "\U{E1}\U{9A}\U{80}"
      || (s[..2] == "\U{E2}\U{80}" && ('\U{80}' <= s[2] <= '\U{8A}' || s[2] in "\U{A8}\U{A9}\U{AF}"))
      || s == "\U{E2}\U{81}\U{9F}"
      || s == "\U{E3}\U{80}\U{80}"
    case _ => false
  }

  predicate Visible(s: string) {
    forall i :: 0 <= i < |s| ==> '!' <= s[i] <= '~'
  }

  /** The number of bytes of the white space character at the front, 0 if there is none. */
  function LeadingSpace(s: Bytes): (n: nat)
    ensures n <= |s| && (Visible(s) ==> n == 0)
  {
    if |s| >= 1 && IsSpace(s[..1]) then 1
    else if |s| >= 2 && IsSpace(s[..2]) then 2
    else if |s| >= 3 && IsSpace(s[..3]) then 3
    else 0
  }

  function TrailingSpace(s: Bytes): (n: nat)
    ensures n <= |s| && (Visible(s) ==> n == 0)
  {
    if |s| >= 1 && IsSpace(s[|s| - 1..]) then 1
    else if |s| >= 2 && IsSpace(s[|s| - 2..]) then 2
    else if |s| >= 3 && IsSpace(s[|s| - 3..]) then 3
    else 0
  }

  /** strings.TrimSpace */
  function TrimSpace(s: Bytes): (r: Bytes)
    ensures Visible(s) ==> r == s
  {
    if LeadingSpace(s) > 0 then TrimSpace(s[LeadingSpace(s)..])
    else if TrailingSpace(s) > 0 then TrimSpace(s[..|s| - TrailingSpace(s)])
    else s
  }

  ghost predicate OccursAt(s: string, sub: string, i: int) {
    0 <= i && i + |sub| <= |s| && s[i..i + |sub|] == sub
  }

  /** strings.Index: the first position at which `sub` occurs, or -1. */
  function Index(s: string, sub: string): (i: int)
    ensures i == -1 || OccursAt(s, sub, i)
    ensures forall j :: OccursAt(s, sub, j) ==> 0 <= i <= j
  {
    IndexFrom(s, sub, 0)
  }

  function IndexFrom(s: string, sub: string, from: nat): (i: int)
    ensures i == -1 || (from <= i && OccursAt(s, sub, i))
    ensures forall j :: from <= j && OccursAt(s, sub, j) ==> 0 <= i <= j
    decreases |s| - from
  {
    if from + |sub| > |s| then -1
    else if s[from..from + |sub|] == sub then from
    else IndexFrom(s, sub, from + 1)
  }

  /** Splitting at a separator character: the part before its first occurrence. */
  lemma IndexOfFirst(before: string, c: char, after: string)
    requires c !in before
    ensures Index(before + [c] + after, [c]) == |before|
  {
    var s := before + [c] + after;
    assert OccursAt(s, [c], |before|);
    var i := Index(s, [c]);
    assert s[i] == c;
  }

  lemma IndexOfAbsent(s: string, c: char)
    requires c !in s
    ensures Index(s, [c]) == -1
  {
    assert forall j :: OccursAt(s, [c], j) ==> s[j..j + 1][0] == s[j] && s[j..j + 1] == [c];
  }

  /** The byte order of Go strings and of SQLite's BINARY collation. */
  predicate Less(a: string, b: string) {
    b != [] && (a == [] || a[0] < b[0] || (a[0] == b[0] && Less(a[1..], b[1..])))
  }

  predicate AtMost(a: string, b: string) {
    a == b || Less(a, b)
  }

  lemma {:induction false} LessIrreflexive(a: string)
    ensures !Less(a, a)
  {
    if a != [] { LessIrreflexive(a[1..]); }
  }

  lemma {:induction false} LessTransitive(a: string, b: string, c: string)
    requires Less(a, b) && Less(b, c)
    ensures Less(a, c)
  {
    if a != [] && a[0] == b[0] == c[0] {
      LessTransitive(a[1..], b[1..], c[1..]);
    }
  }

  lemma {:induction false} LessTotal(a: string, b: string)
    ensures Less(a, b) || a == b || Less(b, a)
  {
    if a != [] && b != [] && a[0] == b[0] {
      LessTotal(a[1..], b[1..]);
      if a[1..] == b[1..] {
        assert a == [a[0]] + a[1..] && b == [b[0]] + b[1..];
      }
    }
  }

  lemma LessAsymmetric(a: string, b: string)
    requires Less(a, b)
    ensures !Less(b, a) && a != b
  {
    LessIrreflexive(a);
    if Less(b, a) { LessTransitive(a, b, a); }
  }
}

/** Positional notation, as printed by `%d` and by strconv for base 16. */
module Numbers {

  function Digit(d: nat): (c: char)
    requires d < 16
  {
    if d < 10 then '0' + d as char else 'a' + (d - 10) as char
  }

  /** The value of a digit character, or -1. */
  function DigitValue(c: char): (d: int)
    ensures -1 <= d < 16
  {
    if '0' <= c <= '9' then c as int - '0' as int
    else if 'a' <= c <= 'f' then c as int - 'a' as int + 10
    else -1
  }

  /** The digits of `n`, most significant first; "0" for zero. */
  function Print(n: nat, base: nat): (s: string)
    requires 2 <= base <= 16
    ensures s != []
  {
    if n < base then [Digit(n)]
    else
      assert n / base < n;
      Print(n / base, base) + [Digit(n % base)]
  }

  predicate AllDigits(s: string, base: nat) {
    forall i :: 0 <= i < |s| ==> 0 <= DigitValue(s[i]) < base
  }

  function Value(s: string, base: nat): nat
    requires AllDigits(s, base)
  {
    if s == [] then 0
    else base * Value(s[..|s| - 1], base) + DigitValue(s[|s| - 1])
  }

  lemma ValueOfAppend(s: string, d: nat, base: nat)
    requires d < base <= 16 && AllDigits(s, base)
    ensures AllDigits(s + [Digit(d)], base)
    ensures Value(s + [Digit(d)], base) == base * Value(s, base) + d
  {
    var t := s + [Digit(d)];
    assert t[..|t| - 1] == s;
    assert forall i :: 0 <= i < |t| ==> t[i] == if i < |s| then s[i] else Digit(d);
  }

  lemma PrintStep(n: nat, base: nat) returns (q: nat, r: nat)
    requires 2 <= base <= 16 && base <= n
    ensures q < n && r < base && n == base * q + r
    ensures Print(n, base) == Print(q, base) + [Digit(r)]
  {
    q, r := n / base, n % base;
  }

  /** Reading back what was printed gives the number again. */
  lemma {:induction false} ValueOfPrint(n: nat, base: nat)
    requires 2 <= base <= 16
    ensures AllDigits(Print(n, base), base) && Value(Print(n, base), base) == n
  {
    if n >= base {
      var q, r := PrintStep(n, base);
      ValueOfPrint(q, base);
      ValueOfAppend(Print(q, base), r, base);
    } else {
      ValueOfAppend([], n, base);
      assert [] + [Digit(n)] == [Digit(n)];
    }
  }

  /** `%d` */
  function Itoa(n: int): (s: string)
    ensures s != []
  {
    if n < 0 then "-" + Print(-n, 10) else Print(n, 10)
  }

  lemma ItoaInjective(m: int, n: int)
    requires Itoa(m) == Itoa(n)
    ensures m == n
  {
    ItoaCharacters(m);
    ItoaCharacters(n);
    ValueOfPrint(if m < 0 then -m else m, 10);
    ValueOfPrint(if n < 0 then -n else n, 10);
    if m < 0 && n < 0 {
      assert Print(-m, 10) == Itoa(m)[1..] == Itoa(n)[1..] == Print(-n, 10);
    }
  }

  lemma ItoaCharacters(n: int)
    ensures '/' !in Itoa(n)
    ensures Itoa(n)[0] == '-' <==> n < 0
  {
    var p := if n < 0 then -n else n;
    ValueOfPrint(p, 10);
    forall i | 0 <= i < |Print(p, 10)|
      ensures Print(p, 10)[i] != '/' && Print(p, 10)[i] != '-'
    {
      assert 0 <= DigitValue(Print(p, 10)[i]) < 10;
    }
  }
}
