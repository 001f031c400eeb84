/** The whole pipeline: split, pack, transfer in parallel, join
    (convoy/data.py). */
module EndToEnd {
  import opened Common
  import opened SplitNames
  import opened Ranges
  import opened Packing
  import opened Transfer
  import opened TransferRemote
  import opened TransferRuns

  /** Distinct, non-empty destination paths and a positive split size. */
  ghost predicate SourceOk(entries: seq<Entry>, split: Option<nat>) {
    && (split.Some? ==> split.value > 0)
    && (forall i :: 0 <= i < |entries| ==> entries[i].dst != "")
    && (forall i, j :: 0 <= i < j < |entries| ==> entries[i].dst != entries[j].dst)
  }

  predicate IsSplitEntry(entries: seq<Entry>, split: Option<nat>, i: int) {
    0 <= i < |entries| && IsSplit(|entries[i].content|, split)
  }

  /** No file of the source goes to a name under the pattern of d. */
  predicate NoneBeside(entries: seq<Entry>, d: string) {
    forall j | 0 <= j < |entries| :: !GlobMatch(d, entries[j].dst)
  }

  predicate NoneUnder(entries: seq<Entry>, split: Option<nat>) {
    forall i | 0 <= i < |entries| :: IsSplitEntry(entries, split, i) ==> NoneBeside(entries, entries[i].dst)
  }

  /** No source file goes to a name under the pattern of a split one, and none that
      is split is taken for a piece of another. */
  ghost predicate NoSiblings(entries: seq<Entry>, split: Option<nat>) {
    && NoneUnder(entries, split)
    && forall i, j | IsSplitEntry(entries, split, i) && IsSplitEntry(entries, split, j) ::
         !ReadsAsPieceOf(entries[i].dst, entries[j].dst)
  }

  predicate ReadsAsPieceOf(d: string, c: string) {
    LooksLikePiece(c) && TargetOf(c) == d
  }

  function BuildConfig(entries: seq<Entry>, split: Option<nat>, m: nat, mpt: nat): Config
    requires m > 0 && (split.Some? ==> split.value > 0)
  {
    Config(mpt, Pack(m, AllItems(entries, split)).files, CountsOf(entries, split))
  }

  /** The contents of the pieces of every split destination. */
  ghost function PiecesOf(entries: seq<Entry>, split: Option<nat>): map<string, seq<Bytes>>
    requires split.Some? ==> split.value > 0
  {
    if entries == [] then map[]
    else
      var e := entries[|entries| - 1];
      var rest := PiecesOf(entries[..|entries| - 1], split);
      if IsSplit(|e.content|, split) then rest[e.dst := PieceContents(e.content, split.value)] else rest
  }

  lemma {:induction false} PiecesOfSplitEntry(entries: seq<Entry>, split: Option<nat>, i: int)
    requires SourceOk(entries, split) && IsSplitEntry(entries, split, i)
    ensures entries[i].dst in PiecesOf(entries, split)
    ensures PiecesOf(entries, split)[entries[i].dst] == PieceContents(entries[i].content, split.value)
  {
    var n := |entries| - 1;
    var front := entries[..n];
    if i < n {
      assert IsSplitEntry(front, split, i) && front[i] == entries[i];
      PiecesOfSplitEntry(front, split, i);
    }
  }

  lemma {:induction false} EntryOfPieces(entries: seq<Entry>, split: Option<nat>, d: string) returns (i: int)
    requires SourceOk(entries, split) && d in PiecesOf(entries, split)
    ensures IsSplitEntry(entries, split, i) && entries[i].dst == d
  {
    var n := |entries| - 1;
    var front := entries[..n];
    i := n;
    if d in PiecesOf(front, split) {
      i := EntryOfPieces(front, split, d);
      assert IsSplitEntry(entries, split, i);
    }
  }

  lemma {:induction false} PieceCounts(entries: seq<Entry>, split: Option<nat>)
    requires SourceOk(entries, split)
    ensures PiecesOf(entries, split).Keys == CountsOf(entries, split).Keys
    ensures forall d :: d in PiecesOf(entries, split) ==> CountsOf(entries, split)[d] == |PiecesOf(entries, split)[d]|
  {
    if entries != [] {
      PieceCounts(entries[..|entries| - 1], split);
    }
  }

  lemma PiecesOfEntries(entries: seq<Entry>, split: Option<nat>)
    requires SourceOk(entries, split)
    ensures forall i :: IsSplitEntry(entries, split, i) ==>
      entries[i].dst in PiecesOf(entries, split) &&
      PiecesOf(entries, split)[entries[i].dst] == PieceContents(entries[i].content, split.value)
    ensures forall d :: d in PiecesOf(entries, split) ==> exists i :: IsSplitEntry(entries, split, i) && entries[i].dst == d
    ensures PiecesOf(entries, split).Keys == CountsOf(entries, split).Keys
    ensures forall d :: d in PiecesOf(entries, split) ==> CountsOf(entries, split)[d] == |PiecesOf(entries, split)[d]|
  {
    PieceCounts(entries, split);
    forall d | d in PiecesOf(entries, split)
      ensures exists i :: IsSplitEntry(entries, split, i) && entries[i].dst == d
    {
      var i := EntryOfPieces(entries, split, d);
    }
    forall i | IsSplitEntry(entries, split, i)
      ensures entries[i].dst in PiecesOf(entries, split)
      ensures PiecesOf(entries, split)[entries[i].dst] == PieceContents(entries[i].content, split.value)
    {
      PiecesOfSplitEntry(entries, split, i);
    }
  }

  // ---- items and entries -----------------------------------------------

  /** Item n is the k-th item of entry i. */
  predicate ItemAt(entries: seq<Entry>, split: Option<nat>, n: int, i: int, k: int)
    requires split.Some? ==> split.value > 0
  {
    && 0 <= n < |AllItems(entries, split)| && 0 <= i < |entries| && 0 <= k < NumSplits(entries[i], split)
    && AllItems(entries, split)[n] == ItemsOf(entries[i], split)[k]
  }

  lemma {:induction false} EntryOfItem(entries: seq<Entry>, split: Option<nat>, n: nat) returns (i: nat, k: nat)
    requires (split.Some? ==> split.value > 0) && n < |AllItems(entries, split)|
    ensures ItemAt(entries, split, n, i, k)
  {
    var l := |entries| - 1;
    var before := AllItems(entries[..l], split);
    if n < |before| {
      i, k := EntryOfItem(entries[..l], split, n);
    } else {
      i, k := l, n - |before|;
    }
  }

  lemma {:induction false} ItemOfEntry(entries: seq<Entry>, split: Option<nat>, i: nat, k: nat) returns (n: nat)
    requires (split.Some? ==> split.value > 0) && i < |entries| && k < NumSplits(entries[i], split)
    ensures ItemAt(entries, split, n, i, k)
  {
    var l := |entries| - 1;
    var before := AllItems(entries[..l], split);
    if i < l {
      n := ItemOfEntry(entries[..l], split, i, k);
    } else {
      n := |before| + k;
    }
  }

  lemma ItemName(e: Entry, split: Option<nat>, k: nat)
    requires (split.Some? ==> split.value > 0) && k < NumSplits(e, split)
    ensures ItemsOf(e, split)[k].name == PieceName(e.dst, k, PadWidth(NumSplits(e, split)))
    ensures IsPiece(ItemsOf(e, split)[k]) <==> IsSplit(|e.content|, split)
  {
  }

  lemma PieceNamesInjective(dst: string, a: nat, b: nat, n: nat)
    requires a < n && b < n && a != b
    ensures PieceName(dst, a, PadWidth(n)) != PieceName(dst, b, PadWidth(n))
  {
    if a > 0 && b > 0 {
      PieceNamesOrdered(dst, a, b, n);
    }
  }

  /** Names of items of different entries differ. */
  lemma NamesAcrossEntries(e: Entry, f: Entry, split: Option<nat>, a: nat, b: nat)
    requires split.Some? ==> split.value > 0
    requires a < NumSplits(e, split) && b < NumSplits(f, split)
    requires e.dst != f.dst
    requires IsSplit(|e.content|, split) ==> !GlobMatch(e.dst, f.dst)
    requires IsSplit(|f.content|, split) ==> !GlobMatch(f.dst, e.dst)
    ensures PieceName(e.dst, a, PadWidth(NumSplits(e, split))) != PieceName(f.dst, b, PadWidth(NumSplits(f, split)))
  {
    var x, y := PadWidth(NumSplits(e, split)), PadWidth(NumSplits(f, split));
    if a > 0 {
      PieceNamesMatch(e.dst, a, x);
      if PieceName(e.dst, a, x) == PieceName(f.dst, b, y) {
        PieceOfOther(e.dst, f.dst, b, y);
      }
    } else if b > 0 {
      PieceNamesMatch(f.dst, b, y);
    }
  }

  lemma EntriesNameApart(entries: seq<Entry>, split: Option<nat>, i: nat, l: nat, a: nat, b: nat)
    requires SourceOk(entries, split) && i < l < |entries|
    requires NoneUnder(entries, split)
    requires a < NumSplits(entries[i], split) && b < NumSplits(entries[l], split)
    ensures ItemsOf(entries[i], split)[a].name != ItemsOf(entries[l], split)[b].name
  {
    var e, f := entries[i], entries[l];
    assert IsSplitEntry(entries, split, i) <==> IsSplit(|e.content|, split);
    assert IsSplitEntry(entries, split, l) <==> IsSplit(|f.content|, split);
    ItemName(e, split, a);
    ItemName(f, split, b);
    assert NoneBeside(entries, e.dst) || !IsSplit(|e.content|, split);
    assert NoneBeside(entries, f.dst) || !IsSplit(|f.content|, split);
    NamesAcrossEntries(e, f, split, a, b);
  }

  lemma ItemsOfOneDiffer(e: Entry, split: Option<nat>, a: nat, b: nat)
    requires (split.Some? ==> split.value > 0) && a < b < NumSplits(e, split)
    ensures ItemsOf(e, split)[a].name != ItemsOf(e, split)[b].name
  {
    ItemName(e, split, a);
    ItemName(e, split, b);
    PieceNamesInjective(e.dst, a, b, NumSplits(e, split));
  }

  lemma LastItemAt(entries: seq<Entry>, split: Option<nat>, n: nat)
    requires (split.Some? ==> split.value > 0) && entries != []
    requires |AllItems(entries[..|entries| - 1], split)| <= n < |AllItems(entries, split)|
    ensures var e, k := entries[|entries| - 1], n - |AllItems(entries[..|entries| - 1], split)|;
      k < NumSplits(e, split) && AllItems(entries, split)[n] == ItemsOf(e, split)[k]
  {
  }

  lemma EarlierItemDiffers(entries: seq<Entry>, split: Option<nat>, a: nat, b: nat)
    requires SourceOk(entries, split) && entries != []
    requires NoneUnder(entries, split)
    requires a < |AllItems(entries[..|entries| - 1], split)| && b < NumSplits(entries[|entries| - 1], split)
    ensures AllItems(entries, split)[a].name != ItemsOf(entries[|entries| - 1], split)[b].name
  {
    var l := |entries| - 1;
    var i, k := EntryOfItem(entries[..l], split, a);
    assert entries[..l][i] == entries[i];
    EntriesNameApart(entries, split, i, l, k, b);
  }

  lemma LastItemsDiffer(entries: seq<Entry>, split: Option<nat>, a: nat, b: nat)
    requires SourceOk(entries, split) && entries != []
    requires NoneUnder(entries, split)
    requires |AllItems(entries[..|entries| - 1], split)| <= b && a < b < |AllItems(entries, split)|
    ensures AllItems(entries, split)[a].name != AllItems(entries, split)[b].name
  {
    var l := |entries| - 1;
    var m := |AllItems(entries[..l], split)|;
    LastItemAt(entries, split, b);
    if a >= m {
      LastItemAt(entries, split, a);
      ItemsOfOneDiffer(entries[l], split, a - m, b - m);
    } else {
      EarlierItemDiffers(entries, split, a, b - m);
    }
  }

  lemma FrontNoneUnder(entries: seq<Entry>, split: Option<nat>)
    requires NoneUnder(entries, split) && entries != []
    ensures NoneUnder(entries[..|entries| - 1], split)
  {
    var front := entries[..|entries| - 1];
    forall i | 0 <= i < |front| && IsSplitEntry(front, split, i) ensures NoneBeside(front, front[i].dst) {
      assert IsSplitEntry(entries, split, i) && NoneBeside(entries, entries[i].dst);
    }
  }

  lemma {:induction false} ItemNamesDistinct(entries: seq<Entry>, split: Option<nat>)
    requires SourceOk(entries, split)
    requires NoneUnder(entries, split)
    ensures forall a, b :: 0 <= a < b < |AllItems(entries, split)| ==>
      AllItems(entries, split)[a].name != AllItems(entries, split)[b].name
  {
    if entries != [] {
      var l := |entries| - 1;
      var front := entries[..l];
      FrontNoneUnder(entries, split);
      ItemNamesDistinct(front, split);
      var before := AllItems(front, split);
      forall a, b | 0 <= a < b < |AllItems(entries, split)|
        ensures AllItems(entries, split)[a].name != AllItems(entries, split)[b].name
      {
        if b >= |before| {
          LastItemsDiffer(entries, split, a, b);
        }
      }
    }
  }

  // ---- the plan is good ------------------------------------------------

  /** A place in a node's list, and the entry and piece that it holds. */
  lemma EntryOfSlot(entries: seq<Entry>, split: Option<nat>, m: nat, mpt: nat, w: int, j: int)
      returns (n: nat, i: nat, k: nat)
    requires m > 0 && SourceOk(entries, split)
    requires IsSlot(BuildConfig(entries, split, m, mpt).files, w, j)
    ensures ItemAt(entries, split, n, i, k) && SlotOf(m, AllItems(entries, split), n) == (w, j)
    ensures BuildConfig(entries, split, m, mpt).files[w][j] == ItemsOf(entries[i], split)[k]
  {
    var items := AllItems(entries, split);
    n := SlotsCover(m, items, w, j);
    SlotsHoldItems(m, items);
    i, k := EntryOfItem(entries, split, n);
  }

  lemma SlotOfEntry(entries: seq<Entry>, split: Option<nat>, m: nat, mpt: nat, i: nat, k: nat) returns (w: nat, j: nat)
    requires m > 0 && SourceOk(entries, split) && i < |entries| && k < NumSplits(entries[i], split)
    ensures IsSlot(BuildConfig(entries, split, m, mpt).files, w, j)
    ensures BuildConfig(entries, split, m, mpt).files[w][j] == ItemsOf(entries[i], split)[k]
  {
    var items := AllItems(entries, split);
    var n := ItemOfEntry(entries, split, i, k);
    SlotsHoldItems(m, items);
    w, j := SlotOf(m, items, n).0, SlotOf(m, items, n).1;
  }

  lemma BuiltNamesDistinct(entries: seq<Entry>, split: Option<nat>, m: nat, mpt: nat)
    requires m > 0 && SourceOk(entries, split) && NoneUnder(entries, split)
    ensures NamesDistinct(BuildConfig(entries, split, m, mpt))
  {
    var cfg := BuildConfig(entries, split, m, mpt);
    ItemNamesDistinct(entries, split);
    forall w, j, w', j'
      | IsSlot(cfg.files, w, j) && IsSlot(cfg.files, w', j') && cfg.files[w][j].name == cfg.files[w'][j'].name
      ensures w == w' && j == j'
    {
      var n, i, k := EntryOfSlot(entries, split, m, mpt, w, j);
      var n', i', k' := EntryOfSlot(entries, split, m, mpt, w', j');
      assert n == n';
    }
  }

  lemma EntryByDst(entries: seq<Entry>, split: Option<nat>, d: string) returns (i: nat)
    requires SourceOk(entries, split) && d in PiecesOf(entries, split)
    ensures IsSplitEntry(entries, split, i) && entries[i].dst == d
    ensures PiecesOf(entries, split)[d] == PieceContents(entries[i].content, split.value)
    ensures |PiecesOf(entries, split)[d]| == NumSplits(entries[i], split)
  {
    PiecesOfEntries(entries, split);
    i :| IsSplitEntry(entries, split, i) && entries[i].dst == d;
  }

  lemma ReceivedIsContent(e: Entry, split: Option<nat>, k: nat)
    requires (split.Some? ==> split.value > 0) && IsSplit(|e.content|, split) && k < NumSplits(e, split)
    ensures Received(ItemsOf(e, split)[k]) == PieceContents(e.content, split.value)[k]
  {
    RangeInFile(e.content, split.value, k);
  }

  lemma BuiltItemOk(entries: seq<Entry>, split: Option<nat>, m: nat, mpt: nat, w: int, j: int)
    requires m > 0 && SourceOk(entries, split) && NoSiblings(entries, split)
    requires IsSlot(BuildConfig(entries, split, m, mpt).files, w, j)
    ensures ItemOk(BuildConfig(entries, split, m, mpt).files[w][j], PiecesOf(entries, split))
  {
    var pieces := PiecesOf(entries, split);
    var n, i, k := EntryOfSlot(entries, split, m, mpt, w, j);
    var e := entries[i];
    var x := ItemsOf(e, split)[k];
    var lpad := PadWidth(NumSplits(e, split));
    ItemName(e, split, k);
    TargetOfPiece(e.dst, k, lpad);
    if IsPiece(x) && TargetOf(x.name) in pieces {
      var i0 := EntryByDst(entries, split, TargetOf(x.name));
      assert IsSplitEntry(entries, split, i);
      assert entries[i0].dst == e.dst && i0 == i;
      assert x.name == PieceName(TargetOf(x.name), k, PadWidth(|pieces[TargetOf(x.name)]|));
    }
    forall d | d in pieces && GlobMatch(d, x.name) ensures IsPiece(x) && TargetOf(x.name) == d {
      var i0 := EntryByDst(entries, split, d);
      PieceOfOther(d, e.dst, k, lpad);
      assert NoneBeside(entries, entries[i0].dst) && !GlobMatch(entries[i0].dst, e.dst);
      assert k > 0;
    }
  }

  // ---- counting the pieces of a destination ----------------------------

  ghost predicate HasNamed(cfg: Config, s: set<(int, int)>, name: string) {
    exists x :: x in s && IsSlot(cfg.files, x.0, x.1) && cfg.files[x.0][x.1].name == name
  }

  lemma {:induction false} NamedSetSize(cfg: Config, s: set<(int, int)>, names: seq<string>)
    requires NamesDistinct(cfg)
    requires forall x :: x in s ==> IsSlot(cfg.files, x.0, x.1) && cfg.files[x.0][x.1].name in names
    requires forall a :: 0 <= a < |names| ==> HasNamed(cfg, s, names[a])
    requires forall a, b :: 0 <= a < b < |names| ==> names[a] != names[b]
    ensures |s| == |names|
    decreases |names|
  {
    if names == [] {
      assert s == {};
    } else {
      var l := |names| - 1;
      assert HasNamed(cfg, s, names[l]);
      var x :| x in s && IsSlot(cfg.files, x.0, x.1) && cfg.files[x.0][x.1].name == names[l];
      forall y | y in s - {x} ensures cfg.files[y.0][y.1].name in names[..l] {
        assert y != x && IsSlot(cfg.files, y.0, y.1);
      }
      forall a | 0 <= a < l ensures HasNamed(cfg, s - {x}, names[..l][a]) {
        assert HasNamed(cfg, s, names[a]);
        var y :| y in s && IsSlot(cfg.files, y.0, y.1) && cfg.files[y.0][y.1].name == names[a];
        assert y in s - {x};
      }
      NamedSetSize(cfg, s - {x}, names[..l]);
    }
  }

  /** The names that the parser takes for pieces of d. */
  function ParsedNames(d: string, n: nat): seq<string>
    requires n > 0
  {
    if LooksLikePiece(d) then PieceNames(d, n) else [d] + PieceNames(d, n)
  }

  lemma ParsedNameAt(d: string, n: nat, a: nat) returns (k: nat)
    requires n > 0 && a < |ParsedNames(d, n)|
    ensures k == if LooksLikePiece(d) then a + 1 else a
    ensures k < n && ParsedNames(d, n)[a] == PieceName(d, k, PadWidth(n)) && TargetOf(ParsedNames(d, n)[a]) == d
  {
    k := if LooksLikePiece(d) then a + 1 else a;
    assert k > 0 ==> PieceNames(d, n)[k - 1] == PieceName(d, k, PadWidth(n));
    TargetOfPiece(d, k, PadWidth(n));
  }

  lemma ParsedNamesDistinct(d: string, n: nat)
    requires n > 0
    ensures forall a, b :: 0 <= a < b < |ParsedNames(d, n)| ==> ParsedNames(d, n)[a] != ParsedNames(d, n)[b]
  {
    forall a, b | 0 <= a < b < |ParsedNames(d, n)| ensures ParsedNames(d, n)[a] != ParsedNames(d, n)[b] {
      var i := ParsedNameAt(d, n, a);
      var j := ParsedNameAt(d, n, b);
      PieceNamesInjective(d, i, j, n);
    }
  }

  lemma ParsedNamesCover(d: string, n: nat, k: nat)
    requires k < n && TargetOf(PieceName(d, k, PadWidth(n))) == d
    ensures PieceName(d, k, PadWidth(n)) in ParsedNames(d, n)
  {
    TargetOfPiece(d, k, PadWidth(n));
    var a := if LooksLikePiece(d) then k - 1 else k;
    var i := ParsedNameAt(d, n, a);
  }

  lemma PieceSetNamed(
      entries: seq<Entry>, split: Option<nat>, m: nat, mpt: nat, d: string, w: int, j: int)
    requires m > 0 && SourceOk(entries, split) && NoSiblings(entries, split)
    requires d in PiecesOf(entries, split) && |PiecesOf(entries, split)[d]| > 0
    requires (w, j) in PieceSet(BuildConfig(entries, split, m, mpt), d)
    ensures IsSlot(BuildConfig(entries, split, m, mpt).files, w, j)
    ensures BuildConfig(entries, split, m, mpt).files[w][j].name in ParsedNames(d, |PiecesOf(entries, split)[d]|)
  {
    var n := |PiecesOf(entries, split)[d]|;
    BuiltItemOk(entries, split, m, mpt, w, j);
    var x := BuildConfig(entries, split, m, mpt).files[w][j];
    var k :| 0 <= k < n && x.name == PieceName(d, k, PadWidth(n));
    ParsedNamesCover(d, n, k);
  }

  lemma NamedInPieceSet(
      entries: seq<Entry>, split: Option<nat>, m: nat, mpt: nat, cfg: Config, d: string, names: seq<string>, a: nat)
    requires m > 0 && SourceOk(entries, split)
    requires cfg == BuildConfig(entries, split, m, mpt) && d in PiecesOf(entries, split)
    requires |PiecesOf(entries, split)[d]| > 0 && names == ParsedNames(d, |PiecesOf(entries, split)[d]|)
    requires a < |names|
    ensures HasNamed(cfg, PieceSet(cfg, d), names[a])
  {
    var i := EntryByDst(entries, split, d);
    var k := ParsedNameAt(d, NumSplits(entries[i], split), a);
    var w, j := SlotOfEntry(entries, split, m, mpt, i, k);
    ItemName(entries[i], split, k);
    SlotInPieceSet(cfg, d, w, j);
  }

  lemma SlotInPieceSet(cfg: Config, d: string, w: int, j: int)
    requires IsSlot(cfg.files, w, j) && IsPiece(cfg.files[w][j]) && TargetOf(cfg.files[w][j].name) == d
    ensures HasNamed(cfg, PieceSet(cfg, d), cfg.files[w][j].name)
  {
    var x := (w, j);
    assert x in PieceSet(cfg, d) && IsSlot(cfg.files, x.0, x.1);
  }

  lemma PieceSetNames(
      entries: seq<Entry>, split: Option<nat>, m: nat, mpt: nat, cfg: Config, d: string, names: seq<string>)
    requires m > 0 && SourceOk(entries, split) && NoSiblings(entries, split)
    requires cfg == BuildConfig(entries, split, m, mpt) && d in PiecesOf(entries, split)
    requires |PiecesOf(entries, split)[d]| > 0 && names == ParsedNames(d, |PiecesOf(entries, split)[d]|)
    ensures forall x :: x in PieceSet(cfg, d) ==>
      IsSlot(cfg.files, x.0, x.1) && cfg.files[x.0][x.1].name in names
  {
    forall x | x in PieceSet(cfg, d) ensures IsSlot(cfg.files, x.0, x.1) && cfg.files[x.0][x.1].name in names {
      assert x == (x.0, x.1);
      PieceSetNamed(entries, split, m, mpt, d, x.0, x.1);
    }
  }

  lemma PieceSetCovers(
      entries: seq<Entry>, split: Option<nat>, m: nat, mpt: nat, cfg: Config, d: string, names: seq<string>)
    requires m > 0 && SourceOk(entries, split)
    requires cfg == BuildConfig(entries, split, m, mpt) && d in PiecesOf(entries, split)
    requires |PiecesOf(entries, split)[d]| > 0 && names == ParsedNames(d, |PiecesOf(entries, split)[d]|)
    ensures forall a :: 0 <= a < |names| ==> HasNamed(cfg, PieceSet(cfg, d), names[a])
  {
    forall a | 0 <= a < |names| ensures HasNamed(cfg, PieceSet(cfg, d), names[a]) {
      NamedInPieceSet(entries, split, m, mpt, cfg, d, names, a);
    }
  }

  lemma PieceSetSize(entries: seq<Entry>, split: Option<nat>, m: nat, mpt: nat, d: string)
    requires m > 0 && SourceOk(entries, split) && NoSiblings(entries, split)
    requires d in PiecesOf(entries, split) && |PiecesOf(entries, split)[d]| > 0
    ensures |PieceSet(BuildConfig(entries, split, m, mpt), d)| ==
      |PiecesOf(entries, split)[d]| - (if LooksLikePiece(d) then 1 else 0)
  {
    var cfg, num := BuildConfig(entries, split, m, mpt), |PiecesOf(entries, split)[d]|;
    var names := ParsedNames(d, num);
    ParsedNamesDistinct(d, num);
    BuiltNamesDistinct(entries, split, m, mpt);
    PieceSetNames(entries, split, m, mpt, cfg, d, names);
    PieceSetCovers(entries, split, m, mpt, cfg, d, names);
    NamedSetSize(cfg, PieceSet(cfg, d), names);
  }

  lemma PiecesNotEmpty(entries: seq<Entry>, split: Option<nat>, d: string)
    requires SourceOk(entries, split) && d in PiecesOf(entries, split)
    ensures |PiecesOf(entries, split)[d]| > 0 && d != ""
  {
    var i := EntryByDst(entries, split, d);
    CeilDivBounds(|entries[i].content|, split.value);
  }

  lemma PieceSlotExists(entries: seq<Entry>, split: Option<nat>, m: nat, mpt: nat, d: string, k: nat)
    requires m > 0 && SourceOk(entries, split)
    requires d in PiecesOf(entries, split) && k < |PiecesOf(entries, split)[d]|
    ensures PiecePlaced(BuildConfig(entries, split, m, mpt), d, k,
      |PiecesOf(entries, split)[d]|, PiecesOf(entries, split)[d][k])
  {
    var i := EntryByDst(entries, split, d);
    var w, j := SlotOfEntry(entries, split, m, mpt, i, k);
    ItemName(entries[i], split, k);
    ReceivedIsContent(entries[i], split, k);
    assert PieceSlot(BuildConfig(entries, split, m, mpt), w, j, d, k,
      |PiecesOf(entries, split)[d]|, PiecesOf(entries, split)[d][k]);
  }

  lemma BuiltPiecesPlaced(entries: seq<Entry>, split: Option<nat>, m: nat, mpt: nat)
    requires m > 0 && SourceOk(entries, split)
    ensures PiecesPlaced(BuildConfig(entries, split, m, mpt), PiecesOf(entries, split))
  {
    var cfg, pieces := BuildConfig(entries, split, m, mpt), PiecesOf(entries, split);
    forall d, k: nat | d in pieces && k < |pieces[d]|
      ensures PiecePlaced(cfg, d, k, |pieces[d]|, pieces[d][k])
    {
      PieceSlotExists(entries, split, m, mpt, d, k);
    }
  }

  lemma BuiltItemsOk(entries: seq<Entry>, split: Option<nat>, m: nat, mpt: nat)
    requires m > 0 && SourceOk(entries, split) && NoSiblings(entries, split)
    ensures ItemsOk(BuildConfig(entries, split, m, mpt), PiecesOf(entries, split))
  {
    var cfg := BuildConfig(entries, split, m, mpt);
    forall w, j | IsSlot(cfg.files, w, j) ensures ItemOk(cfg.files[w][j], PiecesOf(entries, split)) {
      BuiltItemOk(entries, split, m, mpt, w, j);
    }
  }

  lemma BuiltNotNested(entries: seq<Entry>, split: Option<nat>)
    requires SourceOk(entries, split) && NoSiblings(entries, split)
    ensures NotNested(PiecesOf(entries, split))
  {
    forall d, c | d in PiecesOf(entries, split) && c in PiecesOf(entries, split)
      ensures !GlobMatch(d, c) && !(LooksLikePiece(c) && TargetOf(c) == d)
    {
      var i := EntryByDst(entries, split, d);
      var i' := EntryByDst(entries, split, c);
    }
  }

  lemma BuiltPieceSetsSized(entries: seq<Entry>, split: Option<nat>, m: nat, mpt: nat)
    requires m > 0 && SourceOk(entries, split) && NoSiblings(entries, split)
    ensures PieceSetsSized(BuildConfig(entries, split, m, mpt), PiecesOf(entries, split))
  {
    forall d | d in PiecesOf(entries, split)
      ensures |PieceSet(BuildConfig(entries, split, m, mpt), d)| ==
        |PiecesOf(entries, split)[d]| - (if LooksLikePiece(d) then 1 else 0)
    {
      PiecesNotEmpty(entries, split, d);
      PieceSetSize(entries, split, m, mpt, d);
    }
  }

  /** The plan that the packing loop builds is one the workers can carry out. */
  lemma BuiltPlanOk(entries: seq<Entry>, split: Option<nat>, m: nat, mpt: nat)
    requires m > 0 && mpt > 0 && SourceOk(entries, split) && NoSiblings(entries, split)
    ensures PlanOk(BuildConfig(entries, split, m, mpt), PiecesOf(entries, split))
  {
    PiecesOfEntries(entries, split);
    forall d | d in PiecesOf(entries, split) ensures |PiecesOf(entries, split)[d]| > 0 && d != "" {
      PiecesNotEmpty(entries, split, d);
    }
    BuiltNamesDistinct(entries, split, m, mpt);
    BuiltPiecesPlaced(entries, split, m, mpt);
    BuiltItemsOk(entries, split, m, mpt);
    BuiltNotNested(entries, split);
    BuiltPieceSetsSized(entries, split, m, mpt);
  }

  // ---- the theorem -----------------------------------------------------

  /** An entry arrives intact exactly when it is not split, or the split size
      is a whole number of read blocks. */
  predicate Intact(e: Entry, split: Option<nat>)
  {
    IsSplit(|e.content|, split) ==> split.value % MAX_READ_BLOCKSIZE_BYTES == 0
  }

  /** Nothing with any content was under the pattern of the entry before the
      transfer, apart from pieces of that entry, which are overwritten. */
  ghost predicate CleanBefore(e: Entry, split: Option<nat>, before: map<string, Bytes>)
    requires split.Some? ==> split.value > 0
  {
    IsSplit(|e.content|, split) ==> ForeignEmpty(before, e.dst, NumSplits(e, split))
  }

  /** The file x is in the way of the join of a split entry. */
  ghost predicate InTheWay(entries: seq<Entry>, split: Option<nat>, x: string) {
    exists i :: IsSplitEntry(entries, split, i) && GlobMatch(entries[i].dst, x)
  }

  /** At the end, entry e holds its content exactly under the two conditions. */
  ghost predicate Delivered(e: Entry, split: Option<nat>, before: map<string, Bytes>, after: map<string, Bytes>)
    requires split.Some? ==> split.value > 0
  {
    Holds(after, e.dst, e.content) <==> Intact(e, split) && CleanBefore(e, split, before)
  }

  lemma SplitEntryDelivered(
      entries: seq<Entry>, split: Option<nat>, m: nat, mpt: nat, before: map<string, Bytes>, s: State, i: int)
    requires m > 0 && mpt > 0 && SourceOk(entries, split) && NoSiblings(entries, split)
    requires Inv(BuildConfig(entries, split, m, mpt), PiecesOf(entries, split), before, s)
    requires AllSucceeded(s) && IsSplitEntry(entries, split, i)
    ensures Delivered(entries[i], split, before, s.remote)
    ensures forall x :: x in s.remote ==> !GlobMatch(entries[i].dst, x)
  {
    var cfg, pieces, e := BuildConfig(entries, split, m, mpt), PiecesOf(entries, split), entries[i];
    PiecesOfEntries(entries, split);
    SuccessJoinsOnce(cfg, pieces, before, s, e.dst);
    assert JoinStored(s, pieces, before, e.dst);
    ReassembledIffAligned(e.content, split.value);
    ReassembledLength(e.content, split.value);
  }

  lemma WholeEntryDelivered(
      entries: seq<Entry>, split: Option<nat>, m: nat, mpt: nat, before: map<string, Bytes>, s: State, i: nat)
    requires m > 0 && mpt > 0 && SourceOk(entries, split)
    requires Inv(BuildConfig(entries, split, m, mpt), PiecesOf(entries, split), before, s)
    requires AllSucceeded(s) && i < |entries| && !IsSplit(|entries[i].content|, split)
    ensures Holds(s.remote, entries[i].dst, entries[i].content)
  {
    var w, j := SlotOfEntry(entries, split, m, mpt, i, 0);
    var cfg := BuildConfig(entries, split, m, mpt);
    SuccessIsDone(cfg, s, w, j);
    assert ItemStored(s, cfg.files[w][j]);
  }

  lemma OtherFile(
      entries: seq<Entry>, split: Option<nat>, m: nat, mpt: nat, before: map<string, Bytes>, s: State, x: string)
    requires m > 0 && mpt > 0 && SourceOk(entries, split) && NoSiblings(entries, split)
    requires Inv(BuildConfig(entries, split, m, mpt), PiecesOf(entries, split), before, s)
    requires AllSucceeded(s) && !IsItemName(BuildConfig(entries, split, m, mpt), x)
    ensures SameAt(before, s.remote, x) <==> !(x in before && InTheWay(entries, split, x))
    ensures x in s.remote ==> x in before
  {
    assert OtherKept(before, s, x);
    if InTheWay(entries, split, x) {
      var i :| IsSplitEntry(entries, split, i) && GlobMatch(entries[i].dst, x);
      SplitEntryDelivered(entries, split, m, mpt, before, s, i);
    } else if d :| JoinEnded(s, d) && GlobMatch(d, x) {
      var w, k :| IsJoin(s, w, k, d);
      var i := EntryByDst(entries, split, d);
    }
  }

  /** For every source no file of which goes under the pattern of a split one,
      every number of nodes, every degree of parallelism, every old content of
      the destination and every interleaving: once all
      workers have reported success, each file is at its destination byte for
      byte exactly when its split is block aligned and no old file with any
      content was under its pattern; no name under its pattern is left; and of
      the other names exactly those under such a pattern have gone, while no
      other has changed. */
  lemma TransferEndToEnd(
      entries: seq<Entry>, split: Option<nat>, m: nat, mpt: nat, states: seq<State>, events: seq<Event>)
    requires m > 0 && mpt > 0 && SourceOk(entries, split) && NoSiblings(entries, split)
    requires IsRun(BuildConfig(entries, split, m, mpt), states, events)
    requires AllSucceeded(states[|events|])
    ensures forall i :: 0 <= i < |entries| ==>
      Delivered(entries[i], split, states[0].remote, states[|events|].remote)
    ensures forall x :: x in states[|events|].remote ==> !InTheWay(entries, split, x)
    ensures forall x :: !IsItemName(BuildConfig(entries, split, m, mpt), x) ==>
      (SameAt(states[0].remote, states[|events|].remote, x) <==>
       !(x in states[0].remote && InTheWay(entries, split, x)))
  {
    var cfg, pieces := BuildConfig(entries, split, m, mpt), PiecesOf(entries, split);
    var before, s := states[0].remote, states[|events|];
    BuiltPlanOk(entries, split, m, mpt);
    InvAlongRun(cfg, pieces, states, events, |events|);
    forall i | 0 <= i < |entries| ensures Delivered(entries[i], split, before, s.remote) {
      if IsSplit(|entries[i].content|, split) {
        SplitEntryDelivered(entries, split, m, mpt, before, s, i);
      } else {
        WholeEntryDelivered(entries, split, m, mpt, before, s, i);
      }
    }
    forall x | x in s.remote ensures !InTheWay(entries, split, x) {
      if i :| IsSplitEntry(entries, split, i) && GlobMatch(entries[i].dst, x) {
        SplitEntryDelivered(entries, split, m, mpt, before, s, i);
      }
    }
    forall x | !IsItemName(cfg, x)
      ensures SameAt(before, s.remote, x) <==> !(x in before && InTheWay(entries, split, x))
    {
      OtherFile(entries, split, m, mpt, before, s, x);
    }
  }
}
