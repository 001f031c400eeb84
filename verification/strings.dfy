/** Decimal printing and parsing, zero padding, splitting, joining and the code
    point order of strings, as the Python string methods define them. */
module Strings {
  import opened Common

  // ---- decimal numbers -------------------------------------------------

  predicate IsDigit(c: char) {
    '0' <= c <= '9'
  }

  predicate IsDigits(s: string) {
    forall i :: 0 <= i < |s| ==> IsDigit(s[i])
  }

  function DigitChar(d: nat): (c: char)
    requires d < 10
    ensures IsDigit(c) && c as int - '0' as int == d
  {
    ('0' as int + d) as char
  }

  /** str(n) */
  function Digits(n: nat): (s: string)
    ensures |s| > 0 && IsDigits(s)
  {
    if n < 10 then [DigitChar(n)] else Digits(n / 10) + [DigitChar(n % 10)]
  }

  /** int(s) of a string of decimal digits */
  function Value(s: string): nat
    requires IsDigits(s)
  {
    if s == [] then 0
    else 10 * Value(s[..|s| - 1]) + (s[|s| - 1] as int - '0' as int)
  }

  function Zeros(k: nat): (s: string)
    ensures |s| == k && IsDigits(s)
  {
    seq(k, i => '0')
  }

  /** s.zfill(width), for a string without a sign */
  function ZFill(s: string, width: nat): (r: string)
    ensures |r| == Max(|s|, width)
    ensures IsDigits(s) ==> IsDigits(r)
  {
    Zeros(Max(width - |s|, 0)) + s
  }

  /** int(math.log10(n)), for n >= 1 */
  function FloorLog10(n: nat): nat {
    if n < 10 then 0 else 1 + FloorLog10(n / 10)
  }

  lemma {:induction false} DigitsLength(n: nat)
    ensures |Digits(n)| == FloorLog10(n) + 1
  {
    if n >= 10 {
      DigitsLength(n / 10);
    }
  }

  lemma {:induction false} FloorLog10Monotone(m: nat, n: nat)
    requires m <= n
    ensures FloorLog10(m) <= FloorLog10(n)
  {
    if m >= 10 {
      FloorLog10Monotone(m / 10, n / 10);
    }
  }

  lemma {:induction false} ValueOfDigits(n: nat)
    ensures Value(Digits(n)) == n
  {
    if n >= 10 {
      ValueOfDigits(n / 10);
      assert Digits(n)[..|Digits(n)| - 1] == Digits(n / 10);
    } else {
      assert Digits(n)[..0] == [];
    }
  }

  lemma {:induction false} ValueOfPadded(k: nat, s: string)
    requires IsDigits(s)
    ensures Value(Zeros(k) + s) == Value(s)
  {
    var r := Zeros(k) + s;
    if s != [] {
      assert r[..|r| - 1] == Zeros(k) + s[..|s| - 1];
      ValueOfPadded(k, s[..|s| - 1]);
    } else if k > 0 {
      assert r[..|r| - 1] == Zeros(k - 1) + [];
      ValueOfPadded(k - 1, []);
    }
  }

  /** Padding loses no information: int(str(n).zfill(w)) == n. */
  lemma PaddedRoundTrip(n: nat, width: nat)
    ensures Value(ZFill(Digits(n), width)) == n
  {
    ValueOfDigits(n);
    ValueOfPadded(Max(width - |Digits(n)|, 0), Digits(n));
  }

  // ---- order -----------------------------------------------------------

  /** a < b, comparing code points from the left */
  predicate Less(a: string, b: string) {
    b != [] && (a == [] || a[0] < b[0] || (a[0] == b[0] && Less(a[1..], b[1..])))
  }

  lemma {:induction false} LessIrreflexive(a: string)
    ensures !Less(a, a)
  {
    if a != [] {
      LessIrreflexive(a[1..]);
    }
  }

  lemma {:induction false} LessTotal(a: string, b: string)
    ensures a == b || Less(a, b) || Less(b, a)
  {
    if a != [] && b != [] && a[0] == b[0] {
      LessTotal(a[1..], b[1..]);
      assert a == [a[0]] + a[1..] && b == [b[0]] + b[1..];
    }
  }

  lemma {:induction false} LessTransitive(a: string, b: string, c: string)
    requires Less(a, b) && Less(b, c)
    ensures Less(a, c)
  {
    if a != [] && a[0] == b[0] == c[0] {
      LessTransitive(a[1..], b[1..], c[1..]);
    }
  }

  lemma {:induction false} LessPrepend(p: string, a: string, b: string)
    ensures Less(p + a, p + b) == Less(a, b)
  {
    if p == [] {
      assert p + a == a && p + b == b;
    } else {
      assert (p + a)[1..] == p[1..] + a && (p + b)[1..] == p[1..] + b;
      LessPrepend(p[1..], a, b);
    }
  }

  lemma PrependInjective(p: string, a: string, b: string)
    ensures p + a == p + b <==> a == b
  {
    assert (p + a)[|p|..] == a && (p + b)[|p|..] == b;
  }

  lemma {:induction false} LessSnoc(a: string, b: string, x: char, y: char)
    requires |a| == |b|
    ensures Less(a + [x], b + [y]) <==> (Less(a, b) || (a == b && x < y))
  {
    if a == [] {
      assert a + [x] == [x] && b + [y] == [y];
    } else {
      assert (a + [x])[1..] == a[1..] + [x] && (b + [y])[1..] == b[1..] + [y];
      LessSnoc(a[1..], b[1..], x, y);
      assert a == [a[0]] + a[1..] && b == [b[0]] + b[1..];
    }
  }

  /** On digit strings of one width, code point order is numeric order. */
  lemma {:induction false} LessIsNumeric(a: string, b: string)
    requires IsDigits(a) && IsDigits(b) && |a| == |b|
    ensures Less(a, b) <==> Value(a) < Value(b)
    ensures a == b <==> Value(a) == Value(b)
  {
    if a != [] {
      var n := |a| - 1;
      LessIsNumeric(a[..n], b[..n]);
      LessSnoc(a[..n], b[..n], a[n], b[n]);
      assert a == a[..n] + [a[n]] && b == b[..n] + [b[n]];
    }
  }

  // ---- sorted listing --------------------------------------------------

  predicate StrictlySorted(l: seq<string>) {
    forall i, j :: 0 <= i < j < |l| ==> Less(l[i], l[j])
  }

  ghost predicate IsLeast(m: string, s: set<string>) {
    m in s && forall x :: x in s ==> x == m || Less(m, x)
  }

  lemma {:induction false} LeastExists(s: set<string>)
    requires s != {}
    ensures exists m :: IsLeast(m, s)
    decreases |s|
  {
    var x :| x in s;
    var t := s - {x};
    if t == {} {
      assert s == {x};
      assert IsLeast(x, s);
    } else {
      LeastExists(t);
      var m :| IsLeast(m, t);
      LessTotal(x, m);
      if Less(x, m) {
        forall y | y in s ensures y == x || Less(x, y) {
          if y != x && y != m {
            LessTransitive(x, m, y);
          }
        }
        assert IsLeast(x, s);
      } else {
        assert IsLeast(m, s);
      }
    }
  }

  ghost function Least(s: set<string>): (m: string)
    requires s != {}
    ensures IsLeast(m, s)
  {
    LeastExists(s);
    var m :| IsLeast(m, s);
    m
  }

  lemma LeastUnique(s: set<string>, m: string)
    requires IsLeast(m, s)
    ensures Least(s) == m
  {
    var l := Least(s);
    if l != m {
      LessTransitive(l, m, l);
      LessIrreflexive(l);
    }
  }

  /** The members of a set in code point order, as a shell expands a pattern. */
  ghost function Sorted(s: set<string>): seq<string>
    decreases |s|
  {
    if s == {} then [] else [Least(s)] + Sorted(s - {Least(s)})
  }

  lemma FirstIsLeast(l: seq<string>, m: string)
    requires StrictlySorted(l) && l != [] && IsLeast(m, Elements(l))
    ensures m == l[0]
  {
    var k :| 0 <= k < |l| && l[k] == m;
    assert l[0] in Elements(l);
    if k > 0 {
      LessTransitive(l[0], m, l[0]);
      LessIrreflexive(l[0]);
    }
  }

  lemma {:induction false} SortedUnique(s: set<string>, l: seq<string>)
    requires StrictlySorted(l) && Elements(l) == s
    ensures Sorted(s) == l
    decreases |l|
  {
    if l == [] {
    } else {
      assert l[0] in s;
      var m := Least(s);
      FirstIsLeast(l, m);
      var t := l[1..];
      LessIrreflexive(m);
      assert forall k :: 0 <= k < |t| ==> t[k] == l[k + 1];
      forall x ensures x in Elements(t) <==> x in s - {m} {
        if x in s - {m} {
          var k :| 0 <= k < |l| && l[k] == x;
          assert t[k - 1] == x;
        }
      }
      SortedUnique(s - {m}, t);
    }
  }

  // ---- split and join --------------------------------------------------

  function SplitFrom(s: string, d: string, acc: string): (r: seq<string>)
    requires d != []
    ensures r != []
    decreases |s|
  {
    if s == [] then [acc]
    else if d <= s then [acc] + SplitFrom(s[|d|..], d, [])
    else SplitFrom(s[1..], d, acc + [s[0]])
  }

  /** s.split(d): cut at the leftmost non-overlapping occurrences of d */
  function Split(s: string, d: string): (r: seq<string>)
    requires d != []
    ensures r != []
  {
    SplitFrom(s, d, [])
  }

  /** d.join(parts) */
  function Join(parts: seq<string>, d: string): string {
    if parts == [] then []
    else if |parts| == 1 then parts[0]
    else Join(Front(parts), d) + d + Last(parts)
  }

  lemma {:induction false} JoinCons(p: string, parts: seq<string>, d: string)
    requires parts != []
    ensures Join([p] + parts, d) == p + d + Join(parts, d)
  {
    var all := [p] + parts;
    if |parts| == 1 {
      assert Front(all) == [p];
    } else {
      assert Front(all) == [p] + Front(parts);
      JoinCons(p, Front(parts), d);
    }
  }

  lemma {:induction false} JoinSplitFrom(s: string, d: string, acc: string)
    requires d != []
    ensures Join(SplitFrom(s, d, acc), d) == acc + s
    decreases |s|
  {
    if s == [] {
      assert acc + [] == acc;
    } else if d <= s {
      var tail := s[|d|..];
      var rest := SplitFrom(tail, d, []);
      assert s == d + tail;
      JoinSplitFrom(tail, d, []);
      JoinCons(acc, rest, d);
      assert acc + d + ([] + tail) == acc + (d + tail);
    } else {
      JoinSplitFrom(s[1..], d, acc + [s[0]]);
      assert s == [s[0]] + s[1..];
    }
  }

  /** d.join(s.split(d)) == s */
  lemma JoinSplit(s: string, d: string)
    requires d != []
    ensures Join(Split(s, d), d) == s
  {
    JoinSplitFrom(s, d, []);
  }

  predicate Occurs(d: string, s: string)
    requires d != []
  {
    s != [] && (d <= s || Occurs(d, s[1..]))
  }

  lemma {:induction false} CharAbsent(c: char, s: string)
    requires c !in s
    ensures !Occurs([c], s)
  {
    if s != [] {
      assert s[0] != c;
      CharAbsent(c, s[1..]);
    }
  }

  lemma {:induction false} SplitFromAbsent(s: string, d: string, acc: string)
    requires d != [] && !Occurs(d, s)
    ensures SplitFrom(s, d, acc) == [acc + s]
    decreases |s|
  {
    if s == [] {
      assert acc + [] == acc;
    } else {
      SplitFromAbsent(s[1..], d, acc + [s[0]]);
      assert acc + [s[0]] + s[1..] == acc + s;
    }
  }

  /** Appending a separator and a text without it appends one part. */
  lemma {:induction false} SplitFromAppend(s: string, c: char, tail: string, acc: string)
    requires c !in tail
    ensures SplitFrom(s + [c] + tail, [c], acc) == SplitFrom(s, [c], acc) + [tail]
    decreases |s|
  {
    var whole := s + [c] + tail;
    if s == [] {
      assert whole == [c] + tail;
      assert [c] <= whole && whole[1..] == tail;
      CharAbsent(c, tail);
      SplitFromAbsent(tail, [c], []);
      assert [] + tail == tail;
    } else {
      assert whole[1..] == s[1..] + [c] + tail;
      if s[0] == c {
        assert [c] <= s && [c] <= whole;
        SplitFromAppend(s[1..], c, tail, []);
        assert [acc] + (SplitFrom(s[1..], [c], []) + [tail]) == ([acc] + SplitFrom(s[1..], [c], [])) + [tail];
      } else {
        assert !([c] <= s) && !([c] <= whole);
        SplitFromAppend(s[1..], c, tail, acc + [s[0]]);
      }
    }
  }
}
