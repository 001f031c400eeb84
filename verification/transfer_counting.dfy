/** Which countdowns are used up by the end of a transfer (convoy/data.py). */
module TransferCounting {
  import opened Common
  import opened SplitNames
  import opened Packing
  import opened Transfer
  import opened EndToEnd
  import opened TransferSolo

  /** A plan for one node that may start everything at once. */
  function OneNode(entries: seq<Entry>, split: Option<nat>): Config
    requires split.Some? ==> split.value > 0
  {
    BuildConfig(entries, split, 1, |AllItems(entries, split)| + 1)
  }

  lemma {:induction false} PackOne(items: seq<Xfer>)
    ensures Pack(1, items).files == [items]
  {
    if items != [] {
      PackOne(items[..|items| - 1]);
      assert items == items[..|items| - 1] + [items[|items| - 1]];
    }
  }

  lemma OneNodeIsSolo(entries: seq<Entry>, split: Option<nat>)
    requires SourceOk(entries, split)
    ensures OneNode(entries, split).files == [AllItems(entries, split)]
    ensures OneNode(entries, split).mpt > |OneNode(entries, split).files[0]|
    ensures forall d :: d in OneNode(entries, split).counts ==> OneNode(entries, split).counts[d] > 0
  {
    PackOne(AllItems(entries, split));
    forall d | d in CountsOf(entries, split) ensures CountsOf(entries, split)[d] > 0 {
      PieceCounts(entries, split);
      PiecesNotEmpty(entries, split, d);
    }
  }

  // ---- places of items ---------------------------------------------------

  /** The index of item k of entry i. */
  function PosOf(entries: seq<Entry>, split: Option<nat>, i: nat, k: nat): nat
    requires (split.Some? ==> split.value > 0) && i <= |entries|
  {
    |AllItems(entries[..i], split)| + k
  }

  lemma {:induction false} AllItemsPrefix(entries: seq<Entry>, split: Option<nat>, i: nat)
    requires (split.Some? ==> split.value > 0) && i <= |entries|
    ensures AllItems(entries[..i], split) <= AllItems(entries, split)
  {
    var l := |entries| - 1;
    if i <= l {
      assert entries[..l][..i] == entries[..i];
      AllItemsPrefix(entries[..l], split, i);
    } else {
      assert entries[..i] == entries;
    }
  }

  lemma PosItem(entries: seq<Entry>, split: Option<nat>, i: nat, k: nat)
    requires (split.Some? ==> split.value > 0) && i < |entries| && k < NumSplits(entries[i], split)
    ensures PosOf(entries, split, i, k) < |AllItems(entries, split)|
    ensures AllItems(entries, split)[PosOf(entries, split, i, k)] == ItemsOf(entries[i], split)[k]
  {
    AllItemsSnoc(entries, split, i);
    AllItemsPrefix(entries, split, i + 1);
  }

  lemma {:induction false} ItemAtPos(entries: seq<Entry>, split: Option<nat>, n: nat) returns (i: nat, k: nat)
    requires (split.Some? ==> split.value > 0) && n < |AllItems(entries, split)|
    ensures i < |entries| && k < NumSplits(entries[i], split) && n == PosOf(entries, split, i, k)
    ensures AllItems(entries, split)[n] == ItemsOf(entries[i], split)[k]
  {
    var l := |entries| - 1;
    var front := AllItems(entries[..l], split);
    if n < |front| {
      i, k := ItemAtPos(entries[..l], split, n);
      assert entries[..l][..i] == entries[..i];
    } else {
      i, k := l, n - |front|;
    }
  }

  lemma PosNext(entries: seq<Entry>, split: Option<nat>, i: nat)
    requires (split.Some? ==> split.value > 0) && i < |entries|
    ensures PosOf(entries, split, i + 1, 0) == PosOf(entries, split, i, NumSplits(entries[i], split))
  {
    AllItemsSnoc(entries, split, i);
  }

  lemma {:induction false} PosMonotone(entries: seq<Entry>, split: Option<nat>, i: nat, j: nat)
    requires (split.Some? ==> split.value > 0) && i < j <= |entries|
    ensures PosOf(entries, split, i, NumSplits(entries[i], split)) <= PosOf(entries, split, j, 0)
    decreases j
  {
    PosNext(entries, split, j - 1);
    if i < j - 1 {
      PosMonotone(entries, split, i, j - 1);
    }
  }

  lemma PosDiffers(entries: seq<Entry>, split: Option<nat>, i: nat, k: nat, j: nat, l: nat)
    requires (split.Some? ==> split.value > 0) && i < |entries| && j < |entries|
    requires k < NumSplits(entries[i], split) && l < NumSplits(entries[j], split)
    ensures PosOf(entries, split, i, k) == PosOf(entries, split, j, l) ==> i == j && k == l
  {
    if i < j {
      PosMonotone(entries, split, i, j);
    } else if j < i {
      PosMonotone(entries, split, j, i);
    }
  }

  // ---- which countdowns are used up --------------------------------------

  ghost function Places(a: int, b: int): set<(int, int)> {
    set n | a <= n < b :: (0, n)
  }

  lemma {:induction false} PlacesSize(a: int, b: int)
    requires a <= b
    ensures |Places(a, b)| == b - a
    decreases b - a
  {
    if a < b {
      PlacesSize(a, b - 1);
      assert Places(a, b) == Places(a, b - 1) + {(0, b - 1)};
    } else {
      assert Places(a, b) == {};
    }
  }

  /** The destination of entry i is split and reads like a piece. */
  predicate Misread(entries: seq<Entry>, split: Option<nat>, i: int) {
    IsSplitEntry(entries, split, i) && LooksLikePiece(entries[i].dst)
  }

  /** The first piece of another split file is taken for a piece of d. */
  ghost predicate Stripped(entries: seq<Entry>, split: Option<nat>, d: string) {
    exists c :: Misread(entries, split, c) && TargetOf(entries[c].dst) == d
  }

  /** Entry i gets joined. */
  ghost predicate Joinable(entries: seq<Entry>, split: Option<nat>, i: int) {
    IsSplitEntry(entries, split, i) && (LooksLikePiece(entries[i].dst) ==> Stripped(entries, split, entries[i].dst))
  }

  /** Item k of the split entry i is in the piece set of d exactly if it is parsed as d. */
  lemma InSetIff(entries: seq<Entry>, split: Option<nat>, d: string, i: nat, k: nat)
    requires SourceOk(entries, split) && i < |entries| && k < NumSplits(entries[i], split)
    ensures var name := PieceName(entries[i].dst, k, PadWidth(NumSplits(entries[i], split)));
      (0, PosOf(entries, split, i, k)) in PieceSet(OneNode(entries, split), d) <==>
      IsSplitEntry(entries, split, i) && TargetOf(name) == d
  {
    OneNodeIsSolo(entries, split);
    PosItem(entries, split, i, k);
    ItemName(entries[i], split, k);
  }

  lemma OwnPiece(entries: seq<Entry>, split: Option<nat>, i: nat, k: nat)
    requires SourceOk(entries, split) && IsSplitEntry(entries, split, i) && k < NumSplits(entries[i], split)
    requires k > 0 || !LooksLikePiece(entries[i].dst)
    ensures (0, PosOf(entries, split, i, k)) in PieceSet(OneNode(entries, split), entries[i].dst)
  {
    TargetOfPiece(entries[i].dst, k, PadWidth(NumSplits(entries[i], split)));
    InSetIff(entries, split, entries[i].dst, i, k);
  }

  lemma OwnPieces(entries: seq<Entry>, split: Option<nat>, i: nat, from: nat)
    requires SourceOk(entries, split) && IsSplitEntry(entries, split, i)
    requires from == if LooksLikePiece(entries[i].dst) then 1 else 0
    ensures Places(PosOf(entries, split, i, from), PosOf(entries, split, i, NumSplits(entries[i], split)))
         <= PieceSet(OneNode(entries, split), entries[i].dst)
  {
    var n := NumSplits(entries[i], split);
    forall x | x in Places(PosOf(entries, split, i, from), PosOf(entries, split, i, n))
      ensures x in PieceSet(OneNode(entries, split), entries[i].dst)
    {
      var k := x.1 - PosOf(entries, split, i, 0);
      OwnPiece(entries, split, i, k);
      assert x == (0, PosOf(entries, split, i, k));
    }
  }

  lemma CountOfEntry(entries: seq<Entry>, split: Option<nat>, i: int)
    requires SourceOk(entries, split) && IsSplitEntry(entries, split, i)
    ensures entries[i].dst in CountsOf(entries, split)
    ensures CountsOf(entries, split)[entries[i].dst] == NumSplits(entries[i], split) > 1
  {
    PiecesOfSplitEntry(entries, split, i);
    PieceCounts(entries, split);
    CeilDivBounds(|entries[i].content|, split.value);
  }

  lemma CountedEntry(entries: seq<Entry>, split: Option<nat>, d: string) returns (i: int)
    requires SourceOk(entries, split) && d in CountsOf(entries, split)
    ensures IsSplitEntry(entries, split, i) && entries[i].dst == d
  {
    PieceCounts(entries, split);
    i := EntryOfPieces(entries, split, d);
  }

  lemma JoinableCountsDown(entries: seq<Entry>, split: Option<nat>, i: nat)
    requires SourceOk(entries, split) && Joinable(entries, split, i)
    ensures CountsDown(OneNode(entries, split), entries[i].dst)
  {
    var cfg, d, n := OneNode(entries, split), entries[i].dst, NumSplits(entries[i], split);
    CountOfEntry(entries, split, i);
    var from := if LooksLikePiece(d) then 1 else 0;
    var own := Places(PosOf(entries, split, i, from), PosOf(entries, split, i, n));
    OwnPieces(entries, split, i, from);
    PlacesSize(PosOf(entries, split, i, from), PosOf(entries, split, i, n));
    if LooksLikePiece(d) {
      var x := StripperPlace(entries, split, i);
      SubsetSize(own + {x}, PieceSet(cfg, d));
    } else {
      SubsetSize(own, PieceSet(cfg, d));
    }
  }

  lemma StripperPlace(entries: seq<Entry>, split: Option<nat>, i: nat) returns (x: (int, int))
    requires SourceOk(entries, split) && IsSplitEntry(entries, split, i) && Stripped(entries, split, entries[i].dst)
    ensures x in PieceSet(OneNode(entries, split), entries[i].dst)
    ensures x !in Places(PosOf(entries, split, i, 1), PosOf(entries, split, i, NumSplits(entries[i], split)))
  {
    var c :| Misread(entries, split, c) && TargetOf(entries[c].dst) == entries[i].dst;
    CountOfEntry(entries, split, c);
    InSetIff(entries, split, entries[i].dst, c, 0);
    x := (0, PosOf(entries, split, c, 0));
    if x in Places(PosOf(entries, split, i, 1), PosOf(entries, split, i, NumSplits(entries[i], split))) {
      PosDiffers(entries, split, i, x.1 - PosOf(entries, split, i, 0), c, 0);
    }
  }

  lemma NotJoinable(entries: seq<Entry>, split: Option<nat>, i: nat)
    requires SourceOk(entries, split) && IsSplitEntry(entries, split, i) && !Joinable(entries, split, i)
    ensures !CountsDown(OneNode(entries, split), entries[i].dst)
  {
    var cfg, d, n := OneNode(entries, split), entries[i].dst, NumSplits(entries[i], split);
    CountOfEntry(entries, split, i);
    var own := Places(PosOf(entries, split, i, 1), PosOf(entries, split, i, n));
    forall x | x in PieceSet(cfg, d) ensures x in own {
      PieceIsOwn(entries, split, i, x);
    }
    PlacesSize(PosOf(entries, split, i, 1), PosOf(entries, split, i, n));
    SubsetSize(PieceSet(cfg, d), own);
  }

  lemma PieceIsOwn(entries: seq<Entry>, split: Option<nat>, i: nat, x: (int, int))
    requires SourceOk(entries, split) && IsSplitEntry(entries, split, i) && !Joinable(entries, split, i)
    requires x in PieceSet(OneNode(entries, split), entries[i].dst)
    ensures x in Places(PosOf(entries, split, i, 1), PosOf(entries, split, i, NumSplits(entries[i], split)))
  {
    OneNodeIsSolo(entries, split);
    assert x == (0, x.1) && 0 <= x.1 < |AllItems(entries, split)|;
    var j, k := ItemAtPos(entries, split, x.1);
    InSetIff(entries, split, entries[i].dst, j, k);
    TargetOfPiece(entries[j].dst, k, PadWidth(NumSplits(entries[j], split)));
    assert k == 0 ==> !Misread(entries, split, j);
  }

  /** The countdowns that are used up are those of the joinable entries. */
  lemma CountsDownIff(entries: seq<Entry>, split: Option<nat>, d: string)
    requires SourceOk(entries, split)
    ensures CountsDown(OneNode(entries, split), d) <==>
            exists i :: Joinable(entries, split, i) && entries[i].dst == d
  {
    if CountsDown(OneNode(entries, split), d) {
      var i := CountedEntry(entries, split, d);
      if !Joinable(entries, split, i) {
        NotJoinable(entries, split, i);
      }
    }
    if i :| Joinable(entries, split, i) && entries[i].dst == d {
      JoinableCountsDown(entries, split, i);
    }
  }
}
