/** Names of the pieces of a split file and the shell pattern that collects
    them again (convoy/data.py). */
module SplitNames {
  import opened Common
  import opened Strings

  const SPLIT_PREFIX := "_shipyard-"

  /** The suffix width int(math.log10(nsplits)) + 1. */
  function PadWidth(nsplits: nat): nat {
    FloorLog10(nsplits) + 1
  }

  /** It is the number of digits of the number of pieces. */
  lemma PadWidthIsDigits(nsplits: nat)
    requires nsplits > 0
    ensures PadWidth(nsplits) == |Digits(nsplits)|
  {
    DigitsLength(nsplits);
  }

  /** The suffix after the dot of piece n. */
  function PieceSuffix(n: nat, lpad: nat): string {
    SPLIT_PREFIX + ZFill(Digits(n), lpad)
  }

  /** Piece 0 goes to the destination itself, the others beside it. */
  function PieceName(dst: string, n: nat, lpad: nat): string {
    if n == 0 then dst else dst + "." + PieceSuffix(n, lpad)
  }

  /** The destination that a worker recovers from a piece name. */
  function TargetOf(name: string): string {
    var parts := Split(name, ".");
    if SPLIT_PREFIX <= Last(parts) then Join(Front(parts), ".") else name
  }

  /** The last dotted part of a destination reads like a piece suffix. */
  predicate LooksLikePiece(dst: string) {
    SPLIT_PREFIX <= Last(Split(dst, "."))
  }

  predicate HasPrefix(dst: string, name: string) {
    dst + "." <= name
  }

  /** The shell pattern `dst.*`; a star does not match a slash. */
  predicate GlobMatch(dst: string, name: string) {
    HasPrefix(dst, name) && '/' !in name[|dst| + 1..]
  }

  lemma SuffixHasNoDotOrSlash(n: nat, lpad: nat)
    ensures '.' !in PieceSuffix(n, lpad) && '/' !in PieceSuffix(n, lpad)
  {
    var z := ZFill(Digits(n), lpad);
    forall i | 0 <= i < |PieceSuffix(n, lpad)|
      ensures PieceSuffix(n, lpad)[i] != '.' && PieceSuffix(n, lpad)[i] != '/'
    {
      if i >= |SPLIT_PREFIX| {
        assert PieceSuffix(n, lpad)[i] == z[i - |SPLIT_PREFIX|];
        assert IsDigit(z[i - |SPLIT_PREFIX|]);
      }
    }
  }

  /** Printing a piece name and parsing it back gives the destination. For
      piece 0 it does so exactly when the destination does not itself read
      like a piece. */
  lemma TargetOfPiece(dst: string, n: nat, lpad: nat)
    ensures n > 0 ==> TargetOf(PieceName(dst, n, lpad)) == dst
    ensures TargetOf(PieceName(dst, 0, lpad)) == dst <==> !LooksLikePiece(dst)
  {
    if n > 0 {
      var tail := PieceSuffix(n, lpad);
      SuffixHasNoDotOrSlash(n, lpad);
      SplitFromAppend(dst, '.', tail, []);
      var parts := Split(dst + "." + tail, ".");
      assert parts == Split(dst, ".") + [tail];
      assert Front(parts) == Split(dst, ".");
      JoinSplit(dst, ".");
    }
    if LooksLikePiece(dst) {
      StrippedIsShorter(dst);
    }
  }

  /** What is stripped off a destination that reads like a piece. */
  lemma StrippedIsShorter(dst: string)
    requires LooksLikePiece(dst)
    ensures |TargetOf(dst)| < |dst|
    ensures TargetOf(dst) == "" || HasPrefix(TargetOf(dst), dst)
  {
    var parts := Split(dst, ".");
    JoinSplit(dst, ".");
    if |parts| == 1 {
      assert Front(parts) == [];
    } else {
      assert dst == Join(Front(parts), ".") + "." + Last(parts);
    }
  }

  /** Zero padding makes code point order the order of the offsets. */
  lemma PieceNamesOrdered(dst: string, m: nat, n: nat, nsplits: nat)
    requires 0 < m < nsplits && 0 < n < nsplits
    ensures Less(PieceName(dst, m, PadWidth(nsplits)), PieceName(dst, n, PadWidth(nsplits))) <==> m < n
    ensures PieceName(dst, m, PadWidth(nsplits)) == PieceName(dst, n, PadWidth(nsplits)) <==> m == n
  {
    var w := PadWidth(nsplits);
    PaddedOrder(m, n, w, nsplits);
    var p := dst + "." + SPLIT_PREFIX;
    var a, b := ZFill(Digits(m), w), ZFill(Digits(n), w);
    PieceNameParts(dst, m, w);
    PieceNameParts(dst, n, w);
    LessPrepend(p, a, b);
    PrependInjective(p, a, b);
  }

  lemma PieceNameParts(dst: string, n: nat, lpad: nat)
    requires n > 0
    ensures PieceName(dst, n, lpad) == dst + "." + SPLIT_PREFIX + ZFill(Digits(n), lpad)
  {
    var z := ZFill(Digits(n), lpad);
    assert (dst + ".") + (SPLIT_PREFIX + z) == (dst + "." + SPLIT_PREFIX) + z;
  }

  lemma PaddedOrder(m: nat, n: nat, w: nat, nsplits: nat)
    requires m < nsplits && n < nsplits && w == PadWidth(nsplits)
    ensures Less(ZFill(Digits(m), w), ZFill(Digits(n), w)) <==> m < n
    ensures ZFill(Digits(m), w) == ZFill(Digits(n), w) <==> m == n
  {
    DigitsLength(m);
    DigitsLength(n);
    FloorLog10Monotone(m, nsplits);
    FloorLog10Monotone(n, nsplits);
    PaddedRoundTrip(m, w);
    PaddedRoundTrip(n, w);
    LessIsNumeric(ZFill(Digits(m), w), ZFill(Digits(n), w));
  }

  /** One destination's pieces match another destination's pattern only when
      the first destination itself does. */
  lemma PieceOfOther(dst: string, other: string, n: nat, lpad: nat)
    requires HasPrefix(dst, PieceName(other, n, lpad))
    ensures dst == other || HasPrefix(dst, other)
    ensures GlobMatch(dst, PieceName(other, n, lpad)) ==> dst == other || GlobMatch(dst, other)
  {
    if n > 0 {
      var name := PieceName(other, n, lpad);
      SuffixHasNoDotOrSlash(n, lpad);
      assert name[|dst|] == '.' by {
        assert (dst + ".")[|dst|] == name[|dst|];
      }
      var suffix := PieceSuffix(n, lpad);
      assert forall i :: |other| < i < |name| ==> name[i] == suffix[i - |other| - 1];
      assert |dst| <= |other|;
      assert dst == name[..|dst|] && other == name[..|other|];
      if |dst| < |other| {
        PatternOfPrefix(dst, other, name);
      }
    }
  }

  /** A pattern that matches a name matches every shorter part of it that is
      longer than the destination. */
  lemma PatternOfPrefix(dst: string, other: string, name: string)
    requires HasPrefix(dst, name) && other <= name && |dst| < |other|
    ensures HasPrefix(dst, other)
    ensures GlobMatch(dst, name) ==> GlobMatch(dst, other)
  {
    assert other[..|dst| + 1] == name[..|dst| + 1] == dst + ".";
    assert other[|dst| + 1..] == name[|dst| + 1..|other|];
  }

  /** Two patterns that match the same name are nested. */
  lemma PatternsNested(d: string, c: string, x: string)
    requires GlobMatch(d, x) && GlobMatch(c, x) && d != c
    ensures GlobMatch(d, c) || GlobMatch(c, d)
  {
    assert d == x[..|d|] && c == x[..|c|];
    if |d| < |c| {
      PatternOfPrefix(d, c, x);
    } else if |c| < |d| {
      PatternOfPrefix(c, d, x);
    }
  }

  /** The pieces beside the destination, in order of their numbers. */
  function PieceNames(dst: string, nsplits: nat): (l: seq<string>)
    requires nsplits > 0
    ensures |l| == nsplits - 1
  {
    seq(nsplits - 1, (k: int) requires 0 <= k => PieceName(dst, k + 1, PadWidth(nsplits)))
  }

  lemma PieceNamesMatch(dst: string, n: nat, lpad: nat)
    requires n > 0
    ensures GlobMatch(dst, PieceName(dst, n, lpad))
  {
    SuffixHasNoDotOrSlash(n, lpad);
    assert PieceName(dst, n, lpad)[|dst| + 1..] == PieceSuffix(n, lpad);
  }

  lemma PieceNamesSorted(dst: string, nsplits: nat)
    requires nsplits > 0
    ensures StrictlySorted(PieceNames(dst, nsplits))
  {
    var l := PieceNames(dst, nsplits);
    forall i, j | 0 <= i < j < |l| ensures Less(l[i], l[j]) {
      PieceNamesOrdered(dst, i + 1, j + 1, nsplits);
    }
  }

  lemma GlobListsPieces(names: set<string>, dst: string, nsplits: nat)
    requires nsplits > 0
    requires forall n :: 0 < n < nsplits ==> PieceName(dst, n, PadWidth(nsplits)) in names
    requires forall x :: x in names && GlobMatch(dst, x) ==>
      exists n :: 0 < n < nsplits && x == PieceName(dst, n, PadWidth(nsplits))
    ensures (set x | x in names && GlobMatch(dst, x)) == Elements(PieceNames(dst, nsplits))
  {
    var l, w := PieceNames(dst, nsplits), PadWidth(nsplits);
    var s := set x | x in names && GlobMatch(dst, x);
    forall x | x in s ensures x in l {
      var n :| 0 < n < nsplits && x == PieceName(dst, n, w);
      assert l[n - 1] == x;
    }
    forall x | x in l ensures x in s {
      var k :| 0 <= k < |l| && l[k] == x;
      PieceNamesMatch(dst, k + 1, w);
    }
  }

  /** A directory that holds exactly the pieces of `dst` under its pattern is
      expanded by the shell into those pieces in offset order. */
  lemma GlobListsPiecesInOrder(names: set<string>, dst: string, nsplits: nat)
    requires nsplits > 0
    requires forall n :: 0 < n < nsplits ==> PieceName(dst, n, PadWidth(nsplits)) in names
    requires forall x :: x in names && GlobMatch(dst, x) ==>
      exists n :: 0 < n < nsplits && x == PieceName(dst, n, PadWidth(nsplits))
    ensures Sorted(set x | x in names && GlobMatch(dst, x)) == PieceNames(dst, nsplits)
  {
    var l := PieceNames(dst, nsplits);
    PieceNamesSorted(dst, nsplits);
    GlobListsPieces(names, dst, nsplits);
    var s := set x | x in names && GlobMatch(dst, x);
    SortedUnique(s, l);
  }
}
