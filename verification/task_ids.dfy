/** Generic task ids: formatting and parsing
    (convoy/batch.py:4164-4174). */
module TaskIds {
  import opened Common
  import opened Strings

  // ---- numbers in ids ----------------------------------------------------

  /** str(n) */
  function Str(n: int): string {
    if n < 0 then ['-'] + Digits(-n) else Digits(n)
  }

  /** s.zfill(width): the zeros go after a sign. */
  function SignedZFill(s: string, width: nat): string {
    if s != [] && s[0] == '-' then ['-'] + ZFill(s[1..], Max(width - 1, 0)) else ZFill(s, width)
  }

  /** _format_generic_task_id */
  function Format(prefix: string, padding: nat, n: int): string {
    prefix + SignedZFill(Str(n), padding)
  }

  /** Digits, with single underscores between them. */
  predicate Grouped(s: string) {
    && s != [] && IsDigit(s[0]) && IsDigit(s[|s| - 1])
    && forall i | 0 <= i < |s| :: IsDigit(s[i]) || (s[i] == '_' && i + 1 < |s| && IsDigit(s[i + 1]))
  }

  function Ungroup(s: string): (r: string)
    requires forall i | 0 <= i < |s| :: IsDigit(s[i]) || s[i] == '_'
    ensures IsDigits(r)
    ensures IsDigits(s) ==> r == s
  {
    if s == [] then []
    else
      var n := |s| - 1;
      assert s == s[..n] + [s[n]];
      Ungroup(s[..n]) + if s[n] == '_' then [] else [s[n]]
  }

  function Unsigned(s: string): Option<int> {
    if Grouped(s) then Some(Value(Ungroup(s))) else None
  }

  /** int(s), without its tolerance of white space; None is a ValueError. */
  function PyInt(s: string): Option<int> {
    if s != [] && s[0] == '-' then
      match Unsigned(s[1..])
      case Some(v) => Some(-v)
      case None => None
    else if s != [] && s[0] == '+' then Unsigned(s[1..])
    else Unsigned(s)
  }

  /** The prefix of the ids of merge tasks goes before that of the others. */
  const MERGE := "merge-"

  function StylePrefix(prefix: string, isMergeTask: bool): string {
    if isMergeTask then MERGE + prefix else prefix
  }

  /** Ids are cut at the prefix of the configuration, without the merge prefix. */
  function Delimiter(prefix: string): (d: string)
    ensures d != []
  {
    if prefix == [] then [' '] else prefix
  }

  /** int(id.split(delimiter)[-1]) */
  function ParseNumber(id: string, delimiter: string): Option<int>
    requires delimiter != []
  {
    PyInt(Last(Split(id, delimiter)))
  }

  lemma PyIntOfDigits(s: string)
    requires IsDigits(s) && s != []
    ensures PyInt(s) == Some(Value(s))
  {
    assert IsDigit(s[0]);
  }

  lemma UnsignedDigits(t: string)
    requires IsDigits(t) && t != []
    ensures Unsigned(t) == Some(Value(t))
  {
    assert IsDigit(t[0]);
  }

  lemma PyIntOfMinus(s: string, t: string, v: int)
    requires s != [] && s[0] == '-' && s[1..] == t && Unsigned(t) == Some(v)
    ensures PyInt(s) == Some(-v)
  {
  }

  lemma NaturalPadded(n: nat, width: nat)
    ensures SignedZFill(Str(n), width) == ZFill(Digits(n), width)
  {
    assert IsDigit(Str(n)[0]);
  }

  lemma NegativePadded(n: int, m: nat, width: nat)
    requires n < 0 && n + m == 0
    ensures SignedZFill(Str(n), width) == ['-'] + ZFill(Digits(m), Max(width - 1, 0))
  {
    assert Str(n)[1..] == Digits(m);
  }

  lemma PyIntOfNegative(n: int, m: nat, width: nat)
    requires n < 0 && n + m == 0
    ensures PyInt(SignedZFill(Str(n), width)) == Some(n)
  {
    var t := ZFill(Digits(m), Max(width - 1, 0));
    NegativePadded(n, m, width);
    PaddedRoundTrip(m, Max(width - 1, 0));
    UnsignedDigits(t);
    var s := ['-'] + t;
    assert s[1..] == t;
    PyIntOfMinus(s, t, m);
  }

  /** int(str(n).zfill(w)) == n */
  lemma PyIntOfPadded(n: int, width: nat)
    ensures PyInt(SignedZFill(Str(n), width)) == Some(n)
  {
    if n < 0 {
      PyIntOfNegative(n, -n, width);
    } else {
      NaturalPadded(n, width);
      PaddedRoundTrip(n, width);
      PyIntOfDigits(ZFill(Digits(n), width));
    }
  }

  /** Different numbers have different ids. */
  lemma FormatInjective(prefix: string, padding: nat, m: int, n: int)
    requires Format(prefix, padding, m) == Format(prefix, padding, n)
    ensures m == n
  {
    PrependInjective(prefix, SignedZFill(Str(m), padding), SignedZFill(Str(n), padding));
    PyIntOfPadded(m, padding);
    PyIntOfPadded(n, padding);
  }

  // ---- parsing undoes formatting ---------------------------------------------

  lemma DigitsPrefix(d: string, s: string)
    requires d <= s && IsDigits(s)
    ensures IsDigits(d)
  {
    assert forall i | 0 <= i < |d| :: d[i] == s[i];
  }

  lemma {:induction false} NonDigitAbsent(d: string, s: string)
    requires d != [] && !IsDigits(d) && IsDigits(s)
    ensures !Occurs(d, s)
  {
    if s != [] {
      if d <= s {
        DigitsPrefix(d, s);
      }
      NonDigitAbsent(d, s[1..]);
    }
  }

  /** d occurs in h + d before the end of h and reaches beyond it. */
  predicate Straddles(h: string, d: string) {
    exists i | 0 <= i < |h| :: i + |d| > |h| && d <= (h + d)[i..]
  }

  lemma StraddlesLater(h: string, d: string, k: nat)
    requires k <= |h| && Straddles(h[k..], d)
    ensures Straddles(h, d)
  {
    var i :| 0 <= i < |h[k..]| && i + |d| > |h[k..]| && d <= (h[k..] + d)[i..];
    assert (h + d)[k + i..] == (h[k..] + d)[i..];
  }

  lemma StraddlesHere(h: string, d: string, tail: string)
    requires h != [] && |d| > |h| && d <= h + d + tail
    ensures Straddles(h, d)
  {
    assert (h + d)[0..] == h + d;
    assert d == (h + d + tail)[..|d|] == (h + d)[..|d|];
  }

  /** A text before the prefix does not change the last part, unless the prefix
      is found where it reaches from that text into itself. */
  lemma {:induction false} SplitPast(h: string, d: string, tail: string, acc: string)
    requires d != [] && !Straddles(h, d)
    ensures Last(SplitFrom(h + d + tail, d, acc)) == Last(SplitFrom(tail, d, []))
    decreases |h|
  {
    var s := h + d + tail;
    if h == [] {
      assert s == d + tail && s[|d|..] == tail;
    } else if d <= s {
      if |d| > |h| {
        StraddlesHere(h, d, tail);
      }
      SplitStep(h, d, tail, |d|);
      SplitPast(h[|d|..], d, tail, []);
      assert Last([acc] + SplitFrom(s[|d|..], d, [])) == Last(SplitFrom(s[|d|..], d, []));
    } else {
      SplitStep(h, d, tail, 1);
      SplitPast(h[1..], d, tail, acc + [s[0]]);
    }
  }

  lemma SplitStep(h: string, d: string, tail: string, k: nat)
    requires k <= |h| && !Straddles(h, d)
    ensures (h + d + tail)[k..] == h[k..] + d + tail && !Straddles(h[k..], d)
  {
    if Straddles(h[k..], d) {
      StraddlesLater(h, d, k);
    }
  }

  /** Digits are never found from a text without digits on. */
  lemma DigitsDoNotStraddle(h: string, d: string)
    requires IsDigits(d) && forall i | 0 <= i < |h| :: !IsDigit(h[i])
    ensures !Straddles(h, d)
  {
    forall i | 0 <= i < |h| && i + |d| > |h| ensures !(d <= (h + d)[i..]) {
      PrefixAt(d, h + d, i, 0);
    }
  }

  lemma PrefixAt(d: string, s: string, j: nat, k: nat)
    requires k < |d| && j <= |s|
    ensures d <= s[j..] ==> j + k < |s| && d[k] == s[j + k]
  {
  }

  lemma LastPieceWithout(tail: string, d: string)
    requires d != [] && !IsDigits(d) && IsDigits(tail)
    ensures SplitFrom(tail, d, []) == [tail]
  {
    NonDigitAbsent(d, tail);
    SplitFromAbsent(tail, d, []);
    assert [] + tail == tail;
  }

  function Head(isMergeTask: bool): (h: string)
    ensures forall i | 0 <= i < |h| :: !IsDigit(h[i])
  {
    if isMergeTask then MERGE else []
  }

  /** The prefixes whose generated ids can be read: for merge tasks, whose ids
      are cut at the bare prefix, a non-empty one that is not found from within
      the merge prefix on. */
  predicate Readable(prefix: string, isMergeTask: bool) {
    if prefix == [] then !isMergeTask
    else !IsDigits(prefix) && (isMergeTask ==> !Straddles(MERGE, prefix))
  }

  lemma FormatParts(prefix: string, isMergeTask: bool, padding: nat, n: nat)
    ensures Format(StylePrefix(prefix, isMergeTask), padding, n) ==
      Head(isMergeTask) + prefix + ZFill(Digits(n), padding)
  {
    NaturalPadded(n, padding);
    assert [] + prefix == prefix;
  }

  lemma TailReads(padding: nat, n: nat)
    ensures PyInt(ZFill(Digits(n), padding)) == Some(n)
  {
    PaddedRoundTrip(n, padding);
    PyIntOfDigits(ZFill(Digits(n), padding));
  }

  lemma LastOfBare(tail: string)
    requires IsDigits(tail)
    ensures Last(Split(tail, [' '])) == tail
  {
    assert !IsDigit([' '][0]);
    LastPieceWithout(tail, [' ']);
  }

  /** Numbers are read back from the ids generated under readable prefixes. */
  lemma ParseUndoesFormat(prefix: string, isMergeTask: bool, padding: nat, n: nat)
    requires Readable(prefix, isMergeTask)
    ensures ParseNumber(Format(StylePrefix(prefix, isMergeTask), padding, n), Delimiter(prefix)) == Some(n)
  {
    var tail := ZFill(Digits(n), padding);
    TailReads(padding, n);
    FormatParts(prefix, isMergeTask, padding, n);
    if prefix == [] {
      assert Head(isMergeTask) + prefix + tail == tail;
      LastOfBare(tail);
    } else {
      HeadStraddles(prefix, isMergeTask);
      LastPast(Head(isMergeTask), prefix, tail);
    }
  }

  lemma HeadStraddles(prefix: string, isMergeTask: bool)
    ensures Straddles(Head(isMergeTask), prefix) <==> isMergeTask && Straddles(MERGE, prefix)
  {
  }

  lemma LastPast(h: string, d: string, tail: string)
    requires d != [] && !IsDigits(d) && IsDigits(tail) && !Straddles(h, d)
    ensures Last(Split(h + d + tail, d)) == tail
  {
    SplitPast(h, d, tail, []);
    LastPieceWithout(tail, d);
  }

  lemma {:induction false} SplitCutsOccurrence(s: string, d: string, acc: string)
    requires d != [] && Occurs(d, s)
    ensures |Last(SplitFrom(s, d, acc))| <= |s| - |d|
    decreases |s|
  {
    if d <= s {
      var rest := s[|d|..];
      var r := SplitFrom(rest, d, []);
      assert Last([acc] + r) == Last(r);
      LastPieceBounded(rest, d, []);
    } else {
      SplitCutsOccurrence(s[1..], d, acc + [s[0]]);
    }
  }

  lemma {:induction false} LastPieceBounded(s: string, d: string, acc: string)
    requires d != []
    ensures |Last(SplitFrom(s, d, acc))| <= |acc| + |s|
    decreases |s|
  {
    if s != [] {
      if d <= s {
        var r := SplitFrom(s[|d|..], d, []);
        assert Last([acc] + r) == Last(r);
        LastPieceBounded(s[|d|..], d, []);
      } else {
        LastPieceBounded(s[1..], d, acc + [s[0]]);
      }
    }
  }

  lemma {:induction false} DigitsShortest(s: string)
    requires IsDigits(s) && s != []
    ensures |Digits(Value(s))| <= |s|
  {
    var n := |s| - 1;
    if n > 0 {
      DigitsShortest(s[..n]);
      assert Value(s) / 10 == Value(s[..n]);
    } else {
      assert s[..0] == [];
    }
  }

  lemma {:induction false} UngroupShrinks(s: string)
    requires forall i | 0 <= i < |s| :: IsDigit(s[i]) || s[i] == '_'
    ensures |Ungroup(s)| <= |s|
    ensures s != [] && IsDigit(s[|s| - 1]) ==> Ungroup(s) != []
  {
    if s != [] {
      UngroupShrinks(s[..|s| - 1]);
    }
  }

  /** A string shorter than str(n) does not read as n. */
  lemma ShorterIsOther(s: string, n: nat)
    requires |s| < |Digits(n)|
    ensures PyInt(s) != Some(n)
  {
    if s != [] && (s[0] == '-' || s[0] == '+') {
      ShorterUnsigned(s[1..], n);
    } else {
      ShorterUnsigned(s, n);
    }
  }

  lemma ShorterUnsigned(s: string, n: nat)
    requires |s| < |Digits(n)|
    ensures Unsigned(s) != Some(n)
    ensures Unsigned(s).Some? ==> Unsigned(s).value >= 0
  {
    if Grouped(s) {
      UngroupShrinks(s);
      DigitsShortest(Ungroup(s));
    }
  }

  lemma {:induction false} OccursAtEnd(s: string, d: string)
    requires d != []
    ensures Occurs(d, s + d)
  {
    if s == [] {
      assert s + d == d && d <= d;
    } else {
      assert (s + d)[1..] == s[1..] + d;
      OccursAtEnd(s[1..], d);
    }
  }

  lemma {:induction false} DigitsOfOne(tail: string)
    requires IsDigits(tail)
    ensures Digits(Value(['1'] + tail)) == ['1'] + tail
    ensures Value(['1'] + tail) > 0
  {
    var s := ['1'] + tail;
    if tail == [] {
      assert s[..0] == [];
    } else {
      var n := |tail| - 1;
      assert s[..|s| - 1] == ['1'] + tail[..n];
      DigitsOfOne(tail[..n]);
      assert s == (['1'] + tail[..n]) + [tail[n]];
    }
  }

  lemma NumberEndingIn(s: string, padding: nat) returns (n: nat, head: string)
    requires IsDigits(s)
    ensures Digits(n) == head + s && |Digits(n)| > padding && n > 0
  {
    n, head := Value(['1'] + (Zeros(padding) + s)), ['1'] + Zeros(padding);
    DigitsOfOne(Zeros(padding) + s);
    assert ['1'] + (Zeros(padding) + s) == head + s;
  }

  /** For a prefix of digits only there is, for every padding, a number whose
      generated id is not read back. */
  lemma DigitPrefixBreaksParsing(prefix: string, isMergeTask: bool, padding: nat) returns (n: nat)
    requires prefix != [] && IsDigits(prefix)
    ensures n > 0
    ensures ParseNumber(Format(StylePrefix(prefix, isMergeTask), padding, n), Delimiter(prefix)) != Some(n)
  {
    var head;
    n, head := NumberEndingIn(prefix, padding);
    assert ZFill(Digits(n), padding) == Digits(n);
    FormatParts(prefix, isMergeTask, padding, n);
    LastIsShorter(Head(isMergeTask), prefix, head);
    ShorterIsOther(Last(Split(Head(isMergeTask) + prefix + Digits(n), prefix)), n);
  }

  lemma LastIsShorter(h: string, d: string, head: string)
    requires d != [] && IsDigits(d) && forall i | 0 <= i < |h| :: !IsDigit(h[i])
    ensures |Last(Split(h + d + (head + d), d))| < |head + d|
  {
    DigitsDoNotStraddle(h, d);
    SplitPast(h, d, head + d, []);
    OccursAtEnd(head, d);
    SplitCutsOccurrence(head + d, d, []);
  }

  // ---- merge prefixes that are found too early -------------------------------

  /** A dash at the end and none before. */
  predicate DashEnded(h: string) {
    h != [] && h[|h| - 1] == '-' && forall i | 0 <= i < |h| - 1 :: h[i] != '-'
  }

  lemma MergeDashEnded()
    ensures DashEnded(MERGE)
  {
  }

  /** Where d is found from within h on: at the first dash of d. The part of h
      from there on is the period of d. */
  lemma StraddleAt(h: string, d: string, i: nat)
    requires DashEnded(h) && i < |h| < i + |d| && d <= (h + d)[i..]
    ensures |d| > |h| - i && d[|h| - i - 1] == '-'
    ensures forall k | 0 <= k < |h| - i - 1 :: d[k] != '-'
    ensures forall k | |h| - i <= k < |d| :: d[k] == d[k - (|h| - i)]
  {
    var s := |h| - i;
    assert forall k | 0 <= k < |d| :: d[k] == (h + d)[i..][k] == (h + d)[i + k];
  }

  /** No occurrence of d begins earlier than that. */
  lemma NotEarlier(h: string, d: string, tail: string, i: nat, j: nat)
    requires DashEnded(h) && i < |h| < i + |d| && d <= (h + d)[i..] && j < i
    ensures !(d <= (h + d + tail)[j..])
  {
    StraddleAt(h, d, i);
    PrefixAt(d, h + d + tail, j, |h| - i - 1);
  }

  lemma {:induction false} CutAt(s: string, d: string, i: nat, acc: string)
    requires d != [] && i <= |s| && d <= s[i..] && forall j: nat | j < i :: !(d <= s[j..])
    ensures Last(SplitFrom(s, d, acc)) == Last(SplitFrom(s[i + |d|..], d, []))
    decreases i
  {
    assert s[0..] == s;
    if i == 0 {
      assert Last([acc] + SplitFrom(s[|d|..], d, [])) == Last(SplitFrom(s[|d|..], d, []));
    } else {
      var t := s[1..];
      assert t[i - 1..] == s[i..] && t[i - 1 + |d|..] == s[i + |d|..];
      assert !(d <= s);
      forall j: nat | j < i - 1 ensures !(d <= t[j..]) {
        assert t[j..] == s[j + 1..];
      }
      CutAt(t, d, i - 1, acc + [s[0]]);
    }
  }

  /** What is left of d after such a cut: as many characters as its period has,
      among them one dash. */
  lemma RestAfterStraddle(h: string, d: string, tail: string, i: nat) returns (v: string, q: nat)
    requires DashEnded(h) && i < |h| < i + |d| && d <= (h + d)[i..]
    ensures 0 < |v| == |h| - i < |d| && v == d[|d| - |v|..]
    ensures (h + d + tail)[i + |d|..] == v + tail
    ensures q < |v| && v[q] == '-' && forall k | 0 <= k < |v| && k != q :: v[k] != '-'
  {
    StraddleAt(h, d, i);
    var s := |h| - i;
    v := d[|d| - s..];
    q := DashInPeriod(d, s, |d| - s);
    q := q - (|d| - s);
    OneDash(d, s, |d| - s + q);
  }

  /** In a text with period s whose first s characters hold one dash at the end,
      every s characters in a row hold one dash. */
  lemma {:induction false} DashInPeriod(d: string, s: nat, from: nat) returns (q: nat)
    requires 0 < s && from + s <= |d| && d[s - 1] == '-'
    requires forall k | s <= k < |d| :: d[k] == d[k - s]
    ensures from <= q < from + s && d[q] == '-'
    decreases from
  {
    if from == 0 {
      q := s - 1;
    } else {
      q := DashInPeriod(d, s, from - 1);
      if q == from - 1 {
        q := q + s;
      }
    }
  }

  lemma {:induction false} DashesApart(d: string, s: nat, a: nat, b: nat)
    requires 0 < s <= |d| && a < b < |d| && b < a + s && d[a] == '-' && d[b] == '-'
    requires forall k | 0 <= k < s - 1 :: d[k] != '-'
    requires forall k | s <= k < |d| :: d[k] == d[k - s]
    ensures false
    decreases b
  {
    assert a >= s - 1;
    assert d[b] == d[b - s];
    if a >= s {
      DashesApart(d, s, a - s, b - s);
    }
  }

  lemma OneDash(d: string, s: nat, q: nat)
    requires 0 < s <= |d| && |d| - s <= q < |d| && d[q] == '-'
    requires forall k | 0 <= k < s - 1 :: d[k] != '-'
    requires forall k | s <= k < |d| :: d[k] == d[k - s]
    ensures forall k | |d| - s <= k < |d| && k != q :: d[k] != '-'
  {
    forall k | |d| - s <= k < |d| && k != q ensures d[k] != '-' {
      if d[k] == '-' {
        DashesApart(d, s, Min(k, q), Max(k, q));
      }
    }
  }

  /** The prefix does not occur in what is left. */
  lemma NotInRest(d: string, v: string, q: nat, tail: string, j: nat)
    requires 0 < |v| < |d| && v == d[|d| - |v|..] && IsDigits(tail) && j <= |v + tail|
    requires q < |v| && v[q] == '-' && forall k | 0 <= k < |v| && k != q :: v[k] != '-'
    ensures !(d <= (v + tail)[j..])
  {
    var k := |d| - |v| + q;
    PrefixAt(d, v + tail, j, k);
    assert d[k] == v[q] && j + k > q;
    assert j + k < |v + tail| ==>
      (v + tail)[j + k] == if j + k < |v| then v[j + k] else tail[j + k - |v|];
  }

  lemma {:induction false} NeverOccurs(d: string, s: string)
    requires d != [] && forall j: nat | j <= |s| :: !(d <= s[j..])
    ensures !Occurs(d, s)
  {
    if s != [] {
      assert s[0..] == s;
      forall j: nat | j <= |s[1..]| ensures !(d <= s[1..][j..]) {
        assert s[1..][j..] == s[j + 1..];
      }
      NeverOccurs(d, s[1..]);
    }
  }

  /** A text with a dash is not a positive number. */
  lemma DashIsNoNumber(s: string, q: nat, n: nat)
    requires q < |s| && s[q] == '-' && n > 0
    ensures PyInt(s) != Some(n)
  {
    if q > 0 {
      assert !Grouped(s);
      assert s[1..][q - 1] == '-' && !Grouped(s[1..]);
    } else {
      ShorterUnsignedSign(s[1..]);
    }
  }

  lemma ShorterUnsignedSign(s: string)
    ensures Unsigned(s).Some? ==> Unsigned(s).value >= 0
  {
  }

  /** Under a prefix that is found from within the merge prefix on, no positive
      number of a merge task is read back. */
  lemma StraddlingPrefixBreaksParsing(prefix: string, padding: nat, n: nat)
    requires prefix != [] && Straddles(MERGE, prefix) && n > 0
    ensures ParseNumber(Format(StylePrefix(prefix, true), padding, n), Delimiter(prefix)) != Some(n)
  {
    MergeDashEnded();
    FormatParts(prefix, true, padding, n);
    StraddledParse(MERGE, prefix, ZFill(Digits(n), padding), n);
  }

  lemma StraddledParse(h: string, d: string, tail: string, n: nat)
    requires d != [] && DashEnded(h) && Straddles(h, d) && IsDigits(tail) && n > 0
    ensures ParseNumber(h + d + tail, d) != Some(n)
  {
    var i :| 0 <= i < |h| && i + |d| > |h| && d <= (h + d)[i..];
    FirstCut(h, d, tail, i);
    var v, q := RestAfterStraddle(h, d, tail, i);
    RestUncut(d, v, q, tail);
    assert (v + tail)[q] == '-';
    DashIsNoNumber(v + tail, q, n);
  }

  lemma PrefixOfLonger(d: string, t: string, tail: string, i: nat)
    requires i <= |t| && d <= t[i..]
    ensures d <= (t + tail)[i..]
  {
    assert (t + tail)[i..] == t[i..] + tail;
  }

  lemma FirstCut(h: string, d: string, tail: string, i: nat)
    requires DashEnded(h) && i < |h| < i + |d| && d <= (h + d)[i..]
    ensures Last(Split(h + d + tail, d)) == Last(SplitFrom((h + d + tail)[i + |d|..], d, []))
  {
    PrefixOfLonger(d, h + d, tail, i);
    NoneEarlier(h, d, tail, i);
    CutAt(h + d + tail, d, i, []);
  }

  lemma NoneEarlier(h: string, d: string, tail: string, i: nat)
    requires DashEnded(h) && i < |h| < i + |d| && d <= (h + d)[i..]
    ensures forall j: nat | j < i :: !(d <= (h + d + tail)[j..])
  {
    forall j: nat | j < i ensures !(d <= (h + d + tail)[j..]) {
      NotEarlier(h, d, tail, i, j);
    }
  }

  lemma RestUncut(d: string, v: string, q: nat, tail: string)
    requires 0 < |v| < |d| && v == d[|d| - |v|..] && IsDigits(tail)
    requires q < |v| && v[q] == '-' && forall k | 0 <= k < |v| && k != q :: v[k] != '-'
    ensures SplitFrom(v + tail, d, []) == [v + tail]
  {
    forall j: nat | j <= |v + tail| ensures !(d <= (v + tail)[j..]) {
      NotInRest(d, v, q, tail, j);
    }
    NeverOccurs(d, v + tail);
    SplitFromAbsent(v + tail, d, []);
    assert [] + (v + tail) == v + tail;
  }

  /** With the empty prefix, which a configuration may have, no id of a merge task
      ends in a number: int() raises. */
  lemma EmptyPrefixBreaksMergeIds(padding: nat, n: nat)
    ensures ParseNumber(Format(StylePrefix([], true), padding, n), Delimiter([])) == None
  {
    var tail := ZFill(Digits(n), padding);
    FormatParts([], true, padding, n);
    var s := MERGE + [] + tail;
    assert s[0] == MERGE[0];
    forall k | 0 <= k < |s| ensures s[k] != ' ' {
      assert s[k] == if k < |MERGE| then MERGE[k] else tail[k - |MERGE|];
    }
    CharAbsent(' ', s);
    SplitFromAbsent(s, [' '], []);
    assert [] + s == s;
  }

  // ---- the exact condition ---------------------------------------------------

  ghost predicate ReadsBack(prefix: string, isMergeTask: bool, padding: nat, n: int) {
    ParseNumber(Format(StylePrefix(prefix, isMergeTask), padding, n), Delimiter(prefix)) == Some(n)
  }

  lemma FormatNegative(prefix: string, isMergeTask: bool, padding: nat, n: int)
    requires n < 0
    ensures var tail := ZFill(Digits(-n), Max(padding - 1, 0));
      && SignedZFill(Str(n), padding) == ['-'] + tail
      && Format(StylePrefix(prefix, isMergeTask), padding, n) == Head(isMergeTask) + prefix + (['-'] + tail)
  {
    NegativePadded(n, -n, padding);
    assert [] + prefix == prefix;
  }

  /** What is left of a negative number when it is cut at d. */
  lemma LastOfNegative(d: string, tail: string)
    requires d != [] && !IsDigits(d) && IsDigits(tail)
    ensures Last(SplitFrom(['-'] + tail, d, [])) == if d <= ['-'] + tail then (['-'] + tail)[|d|..] else ['-'] + tail
    ensures d <= ['-'] + tail ==> IsDigits((['-'] + tail)[|d|..])
  {
    var s := ['-'] + tail;
    assert s[1..] == tail;
    if d <= s {
      assert s[|d|..] == tail[|d| - 1..];
      LastPieceWithout(s[|d|..], d);
      assert Last([[]] + SplitFrom(s[|d|..], d, [])) == Last(SplitFrom(s[|d|..], d, []));
    } else {
      NonDigitAbsent(d, tail);
      SplitFromAbsent(tail, d, [] + [s[0]]);
      assert [] + [s[0]] == ['-'];
    }
  }

  lemma DigitsAreNotNegative(s: string)
    requires IsDigits(s)
    ensures PyInt(s).Some? ==> PyInt(s).value >= 0
  {
    if s != [] {
      PyIntOfDigits(s);
    }
  }

  lemma NegativePart(prefix: string, isMergeTask: bool, tail: string)
    requires Readable(prefix, isMergeTask) && IsDigits(tail)
    ensures var s := ['-'] + tail;
      Last(Split(Head(isMergeTask) + prefix + s, Delimiter(prefix))) ==
      if prefix != [] && prefix <= s then s[|prefix|..] else s
    ensures prefix != [] && prefix <= ['-'] + tail ==> IsDigits((['-'] + tail)[|prefix|..])
  {
    var s := ['-'] + tail;
    if prefix == [] {
      assert !IsDigit([' '][0]);
      LastOfNegative([' '], tail);
      assert Head(isMergeTask) + prefix + s == s;
      assert !([' '] <= s);
    } else {
      HeadStraddles(prefix, isMergeTask);
      SplitPast(Head(isMergeTask), prefix, s, []);
      LastOfNegative(prefix, tail);
    }
  }

  /** A negative number is read back under a readable prefix unless the prefix is found
      again at its sign. In that case it reads as a natural number or not at all. */
  lemma NegativeReads(prefix: string, isMergeTask: bool, padding: nat, n: int)
    requires Readable(prefix, isMergeTask) && n < 0
    ensures var r := ParseNumber(Format(StylePrefix(prefix, isMergeTask), padding, n), Delimiter(prefix));
      if prefix != [] && prefix <= SignedZFill(Str(n), padding) then r.None? || r.value >= 0 else r == Some(n)
  {
    var tail := ZFill(Digits(-n), Max(padding - 1, 0));
    FormatNegative(prefix, isMergeTask, padding, n);
    NegativePart(prefix, isMergeTask, tail);
    PyIntOfPadded(n, padding);
    if prefix != [] && prefix <= ['-'] + tail {
      DigitsAreNotNegative((['-'] + tail)[|prefix|..]);
    }
  }

  lemma NaturalHasNoPrefix(prefix: string, padding: nat, n: nat)
    requires !IsDigits(prefix)
    ensures !(prefix <= SignedZFill(Str(n), padding))
  {
    NaturalPadded(n, padding);
    if prefix <= ZFill(Digits(n), padding) {
      DigitsPrefix(prefix, ZFill(Digits(n), padding));
    }
  }

  /** Which of all integers are read back under a readable prefix. */
  lemma ReadsBackIff(prefix: string, isMergeTask: bool, padding: nat, n: int)
    requires Readable(prefix, isMergeTask)
    ensures ReadsBack(prefix, isMergeTask, padding, n) <==>
            prefix == [] || !(prefix <= SignedZFill(Str(n), padding))
  {
    if n < 0 {
      NegativeReads(prefix, isMergeTask, padding, n);
    } else {
      ParseUndoesFormat(prefix, isMergeTask, padding, n);
      if prefix != [] {
        NaturalHasNoPrefix(prefix, padding, n);
      }
    }
  }

  lemma UnreadableNumber(prefix: string, isMergeTask: bool, padding: nat) returns (n: nat)
    requires !Readable(prefix, isMergeTask)
    ensures !ReadsBack(prefix, isMergeTask, padding, n)
  {
    n := 1;
    if prefix == [] {
      EmptyPrefixBreaksMergeIds(padding, n);
    } else if IsDigits(prefix) {
      n := DigitPrefixBreaksParsing(prefix, isMergeTask, padding);
    } else {
      StraddlingPrefixBreaksParsing(prefix, padding, n);
    }
  }

  /** For both kinds of tasks and every padding: the ids of all natural numbers are
      read back if and only if the prefix is readable. */
  lemma ParsingExact(prefix: string, isMergeTask: bool, padding: nat)
    ensures (forall n: nat :: ReadsBack(prefix, isMergeTask, padding, n)) <==> Readable(prefix, isMergeTask)
  {
    if Readable(prefix, isMergeTask) {
      forall n: nat ensures ReadsBack(prefix, isMergeTask, padding, n) {
        ParseUndoesFormat(prefix, isMergeTask, padding, n);
      }
    } else {
      var n := UnreadableNumber(prefix, isMergeTask, padding);
      assert !ReadsBack(prefix, isMergeTask, padding, n);
    }
  }
}
