/** Splitting the source files and packing the pieces onto the nodes
    (convoy/data.py). Node k is the k-th key of the remote login settings. */
module Packing {
  import opened Common
  import opened Ranges
  import opened Strings
  import opened SplitNames

  /** A source file that passed the filters, with its destination path. */
  datatype Entry = Entry(dst: string, content: Bytes)

  /** A work item: a whole file, or a range of one, and the name it gets. */
  datatype Xfer = Xfer(file: Bytes, name: string, range: Option<Range>)

  datatype Plan = Plan(buckets: seq<nat>, files: seq<seq<Xfer>>)

  function Size(x: Xfer): nat {
    match x.range
    case None => |x.file|
    case Some(r) => if r.begin <= r.end then r.end - r.begin else 0
  }

  function NumSplits(e: Entry, split: Option<nat>): nat
    requires split.Some? ==> split.value > 0
  {
    if IsSplit(|e.content|, split) then CeilDiv(|e.content|, split.value) else 1
  }

  function PieceOf(e: Entry, split: nat, k: nat): Xfer
    requires split > 0
  {
    Xfer(e.content, PieceName(e.dst, k, PadWidth(CeilDiv(|e.content|, split))),
         Some(RangeAt(|e.content|, split, k)))
  }

  /** The work items of one source file. */
  function ItemsOf(e: Entry, split: Option<nat>): (items: seq<Xfer>)
    requires split.Some? ==> split.value > 0
    ensures |items| == NumSplits(e, split)
  {
    if IsSplit(|e.content|, split)
    then seq(CeilDiv(|e.content|, split.value), (k: int) requires 0 <= k => PieceOf(e, split.value, k))
    else [Xfer(e.content, e.dst, None)]
  }

  function AllItems(entries: seq<Entry>, split: Option<nat>): seq<Xfer>
    requires split.Some? ==> split.value > 0
  {
    if entries == [] then []
    else AllItems(entries[..|entries| - 1], split) + ItemsOf(entries[|entries| - 1], split)
  }

  /** The shared countdown `spfiles_count`. */
  function CountsOf(entries: seq<Entry>, split: Option<nat>): map<string, int>
    requires split.Some? ==> split.value > 0
  {
    if entries == [] then map[]
    else
      var e := entries[|entries| - 1];
      var counts := CountsOf(entries[..|entries| - 1], split);
      if IsSplit(|e.content|, split) then counts[e.dst := NumSplits(e, split)] else counts
  }

  /** min(buckets, key=buckets.get): the first bucket with the least load */
  function MinIndex(b: seq<nat>): (k: nat)
    requires |b| > 0
    ensures k < |b|
    ensures forall j :: 0 <= j < |b| ==> b[k] <= b[j]
    ensures forall j :: 0 <= j < k ==> b[k] < b[j]
  {
    if |b| == 1 then 0
    else
      var k := MinIndex(b[..|b| - 1]);
      if b[|b| - 1] < b[k] then |b| - 1 else k
  }

  function EmptyPlan(m: nat): Plan {
    Plan(seq(m, k => 0), seq(m, k => []))
  }

  predicate PlanFor(p: Plan, m: nat) {
    |p.buckets| == m && |p.files| == m
  }

  function Place(p: Plan, x: Xfer): (q: Plan)
    requires |p.buckets| == |p.files| > 0
    ensures PlanFor(q, |p.files|)
  {
    var k := MinIndex(p.buckets);
    Plan(p.buckets[k := p.buckets[k] + Size(x)], p.files[k := p.files[k] + [x]])
  }

  /** Greedy packing as a function of the items in walk order. */
  function Pack(m: nat, items: seq<Xfer>): (p: Plan)
    requires m > 0
    ensures PlanFor(p, m)
  {
    if items == [] then EmptyPlan(m)
    else Place(Pack(m, items[..|items| - 1]), items[|items| - 1])
  }

  lemma PackSnoc(m: nat, items: seq<Xfer>, x: Xfer)
    requires m > 0
    ensures Pack(m, items + [x]) == Place(Pack(m, items), x)
  {
    assert (items + [x])[..|items + [x]| - 1] == items;
  }

  /** The three statements that pick the least loaded node, charge it `size`
      bytes and append the item to its list. */
  method Append(p: Plan, x: Xfer, size: nat) returns (q: Plan)
    requires |p.buckets| == |p.files| > 0 && size == Size(x)
    ensures q == Place(p, x) && PlanFor(q, |p.files|)
  {
    var buckets, files := p.buckets, p.files;
    var key := MinIndex(buckets);
    buckets := buckets[key := buckets[key] + size];
    files := files[key := files[key] + [x]];
    q := Plan(buckets, files);
  }

  lemma PackStep(m: nat, before: seq<Xfer>, items: seq<Xfer>, n: nat)
    requires m > 0 && n < |items|
    ensures Pack(m, before + items[..n + 1]) == Place(Pack(m, before + items[..n]), items[n])
  {
    PackSnoc(m, before + items[..n], items[n]);
    assert before + items[..n] + [items[n]] == before + items[..n + 1];
  }

  /** The name and range that the loop computes are those of piece n. */
  lemma PieceInLoop(e: Entry, split: nat, n: nat, curr: nat, end: nat)
    requires 0 < split < |e.content| && n < CeilDiv(|e.content|, split)
    requires curr == n * split && end == Min(curr + split, |e.content|)
    ensures PieceOf(e, split, n).range == Some(Range(curr, end)) && end - curr == Size(PieceOf(e, split, n))
    ensures curr < end
    ensures end == |e.content| <==> n + 1 == CeilDiv(|e.content|, split)
    ensures end < |e.content| ==> end == (n + 1) * split
  {
    assert (n + 1) * split == n * split + split;
    RangeInFile(e.content, split, n);
  }

  lemma PieceItem(e: Entry, split: nat, n: nat, lpad: nat, x: Xfer)
    requires 0 < split < |e.content| && n < CeilDiv(|e.content|, split) && lpad == PadWidth(CeilDiv(|e.content|, split))
    requires x.file == e.content && x.range == PieceOf(e, split, n).range
    requires x.name == if n > 0 then e.dst + "." + (SPLIT_PREFIX + ZFill(Digits(n), lpad)) else e.dst
    ensures x == ItemsOf(e, Some(split))[n]
  {
  }

  /** One file's pieces: the `while True` loop over curr, end and n. */
  method PlacePieces(p: Plan, e: Entry, split: nat, ghost before: seq<Xfer>) returns (q: Plan)
    requires 0 < split < |e.content|
    requires |p.files| > 0 && p == Pack(|p.files|, before)
    ensures q == Pack(|p.files|, before + ItemsOf(e, Some(split)))
  {
    var fsize := |e.content|;
    var nsplits := CeilDiv(fsize, split);
    var lpad := PadWidth(nsplits);
    ghost var m, items := |p.files|, ItemsOf(e, Some(split));
    CeilDivBounds(fsize, split);
    q := p;
    var n, curr := 0, 0;
    assert before + items[..0] == before;
    while true
      invariant curr == n * split && curr < fsize && n < nsplits
      invariant PlanFor(q, m) && q == Pack(m, before + items[..n])
      decreases fsize - curr
    {
      var end := curr + split;
      if end > fsize {
        end := fsize;
      }
      PieceInLoop(e, split, n, curr, end);
      var dstfname := e.dst;
      if n > 0 {
        dstfname := e.dst + "." + (SPLIT_PREFIX + ZFill(Digits(n), lpad));
      }
      var x := Xfer(e.content, dstfname, Some(Range(curr, end)));
      PieceItem(e, split, n, lpad, x);
      PackStep(m, before, items, n);
      q := Append(q, x, end - curr);
      n := n + 1;
      if end == fsize {
        assert items[..n] == items;
        break;
      }
      curr := end;
    }
  }

  lemma AllItemsSnoc(entries: seq<Entry>, split: Option<nat>, i: nat)
    requires split.Some? ==> split.value > 0
    requires i < |entries|
    ensures AllItems(entries[..i + 1], split) == AllItems(entries[..i], split) + ItemsOf(entries[i], split)
    ensures CountsOf(entries[..i + 1], split) ==
      if IsSplit(|entries[i].content|, split)
      then CountsOf(entries[..i], split)[entries[i].dst := NumSplits(entries[i], split)]
      else CountsOf(entries[..i], split)
  {
    assert entries[..i + 1][..i] == entries[..i];
  }

  /** The walk over the source files. Without nodes the first `min` raises. */
  method BinPack(entries: seq<Entry>, m: nat, split: Option<nat>)
      returns (r: Result<Plan>, spfilesCount: map<string, int>)
    requires split.Some? ==> split.value > 0
    ensures r.Failure? <==> m == 0 && entries != []
    ensures r.Success? && m > 0 ==>
      r.value == Pack(m, AllItems(entries, split)) && spfilesCount == CountsOf(entries, split)
  {
    spfilesCount := map[];
    var plan := EmptyPlan(m);
    for i := 0 to |entries|
      invariant PlanFor(plan, m) && (m == 0 ==> i == 0)
      invariant m > 0 ==> plan == Pack(m, AllItems(entries[..i], split))
      invariant spfilesCount == CountsOf(entries[..i], split)
    {
      var e := entries[i];
      AllItemsSnoc(entries, split, i);
      if m == 0 {
        return Failure("min() arg is an empty sequence"), spfilesCount;
      }
      if IsSplit(|e.content|, split) {
        spfilesCount := spfilesCount[e.dst := CeilDiv(|e.content|, split.value)];
        plan := PlacePieces(plan, e, split.value, AllItems(entries[..i], split));
      } else {
        var x := Xfer(e.content, e.dst, None);
        PackSnoc(m, AllItems(entries[..i], split), x);
        plan := Append(plan, x, |e.content|);
      }
    }
    assert entries[..|entries|] == entries;
    r := Success(plan);
  }

  // ---- load balance ----------------------------------------------------

  function Sum(b: seq<nat>): nat {
    if b == [] then 0 else Sum(b[..|b| - 1]) + b[|b| - 1]
  }

  lemma {:induction false} SumUpdate(b: seq<nat>, k: nat, v: nat)
    requires k < |b|
    ensures Sum(b[k := v]) == Sum(b) - b[k] + v
  {
    var n := |b| - 1;
    if k == n {
      assert b[k := v][..n] == b[..n];
    } else {
      assert b[k := v][..n] == b[..n][k := v];
      SumUpdate(b[..n], k, v);
    }
  }

  lemma {:induction false} SumAtLeast(b: seq<nat>, low: nat)
    requires forall j :: 0 <= j < |b| ==> b[j] >= low
    ensures Sum(b) >= |b| * low
  {
    if b != [] {
      SumAtLeast(b[..|b| - 1], low);
      assert |b| * low == (|b| - 1) * low + low;
    }
  }

  lemma {:induction false} SumZeros(m: nat)
    ensures Sum(seq(m, k => 0)) == 0
  {
    if m > 0 {
      assert seq(m, k => 0)[..m - 1] == seq(m - 1, k => 0);
      SumZeros(m - 1);
    }
  }

  function TotalSize(items: seq<Xfer>): nat {
    if items == [] then 0 else TotalSize(items[..|items| - 1]) + Size(items[|items| - 1])
  }

  predicate NoLarger(items: seq<Xfer>, bound: nat) {
    forall k :: 0 <= k < |items| ==> Size(items[k]) <= bound
  }

  /** The bucket loads add up to the bytes packed. */
  lemma {:induction false} LoadsAddUp(m: nat, items: seq<Xfer>)
    requires m > 0
    ensures Sum(Pack(m, items).buckets) == TotalSize(items)
  {
    if items == [] {
      SumZeros(m);
    } else {
      var front := items[..|items| - 1];
      LoadsAddUp(m, front);
      var b := Pack(m, front).buckets;
      SumUpdate(b, MinIndex(b), b[MinIndex(b)] + Size(items[|items| - 1]));
    }
  }

  /** No two buckets ever differ by more than the largest item placed. */
  lemma {:induction false} SpreadBounded(m: nat, items: seq<Xfer>, largest: nat)
    requires m > 0 && NoLarger(items, largest)
    ensures forall i, j :: 0 <= i < m && 0 <= j < m ==>
      Pack(m, items).buckets[i] - Pack(m, items).buckets[j] <= largest
  {
    if items != [] {
      var front := items[..|items| - 1];
      assert Size(items[|items| - 1]) <= largest;
      SpreadBounded(m, front, largest);
    }
  }

  /** The fullest node carries at most the average plus (m - 1) / m of the
      largest item, stated without division. */
  lemma MakespanBounded(m: nat, items: seq<Xfer>, largest: nat, k: nat)
    requires k < m && NoLarger(items, largest)
    ensures m * Pack(m, items).buckets[k] <= TotalSize(items) + (m - 1) * largest
  {
    var b := Pack(m, items).buckets;
    SpreadBounded(m, items, largest);
    LoadsAddUp(m, items);
    forall j | 0 <= j < m ensures b[j] >= Max(b[k] - largest, 0) {
      assert b[k] - b[j] <= largest;
    }
    SumWithPeak(b, k, largest);
  }

  lemma SumWithPeak(b: seq<nat>, k: nat, spread: nat)
    requires k < |b|
    requires forall j :: 0 <= j < |b| ==> b[j] >= Max(b[k] - spread, 0)
    ensures |b| * b[k] <= Sum(b) + (|b| - 1) * spread
  {
    var low := Max(b[k] - spread, 0);
    SumUpdate(b, k, low);
    SumAtLeast(b[k := low], low);
    PeakArithmetic(|b|, b[k], low, spread);
  }

  lemma PeakArithmetic(m: nat, peak: nat, low: nat, spread: nat)
    requires m > 0 && low >= peak - spread
    ensures m * low - low + peak >= m * peak - (m - 1) * spread
  {
    MulMono(peak - spread, low, m - 1);
    assert (peak - spread) * (m - 1) == m * peak - peak - (m - 1) * spread;
  }

  /** With splitting on, no item is larger than the split size. */
  lemma {:induction false} ItemsBoundedBySplit(entries: seq<Entry>, split: nat)
    requires split > 0
    ensures NoLarger(AllItems(entries, Some(split)), split)
  {
    if entries != [] {
      var n := |entries| - 1;
      var e := entries[n];
      ItemsBoundedBySplit(entries[..n], split);
      forall k | 0 <= k < |ItemsOf(e, Some(split))|
        ensures Size(ItemsOf(e, Some(split))[k]) <= split
      {
        assert (k + 1) * split == k * split + split;
      }
    }
  }

  function TotalBytes(entries: seq<Entry>): nat {
    if entries == [] then 0 else TotalBytes(entries[..|entries| - 1]) + |entries[|entries| - 1].content|
  }

  lemma {:induction false} PiecesAddUp(e: Entry, split: nat, n: nat)
    requires 0 < split < |e.content| && 0 < n <= CeilDiv(|e.content|, split)
    ensures TotalSize(ItemsOf(e, Some(split))[..n]) == RangeAt(|e.content|, split, n - 1).end
  {
    var items := ItemsOf(e, Some(split));
    RangeInFile(e.content, split, n - 1);
    assert items[..n][..n - 1] == items[..n - 1];
    if n > 1 {
      PiecesAddUp(e, split, n - 1);
      RangeInFile(e.content, split, n - 2);
    }
  }

  lemma {:induction false} TotalSizeConcat(a: seq<Xfer>, b: seq<Xfer>)
    ensures TotalSize(a + b) == TotalSize(a) + TotalSize(b)
  {
    if b == [] {
      assert a + b == a;
    } else {
      assert (a + b)[..|a + b| - 1] == a + b[..|b| - 1];
      TotalSizeConcat(a, b[..|b| - 1]);
    }
  }

  lemma ItemsOfOneAddUp(e: Entry, split: Option<nat>)
    requires split.Some? ==> split.value > 0
    ensures TotalSize(ItemsOf(e, split)) == |e.content|
  {
    var items := ItemsOf(e, split);
    if IsSplit(|e.content|, split) {
      var k := CeilDiv(|e.content|, split.value);
      CeilDivBounds(|e.content|, split.value);
      PiecesAddUp(e, split.value, k);
      assert items[..k] == items;
      RangeInFile(e.content, split.value, k - 1);
    } else {
      assert items[..0] == [];
    }
  }

  /** Splitting loses and duplicates no byte of the source. */
  lemma {:induction false} ItemsAddUp(entries: seq<Entry>, split: Option<nat>)
    requires split.Some? ==> split.value > 0
    ensures TotalSize(AllItems(entries, split)) == TotalBytes(entries)
  {
    if entries != [] {
      var n := |entries| - 1;
      ItemsAddUp(entries[..n], split);
      TotalSizeConcat(AllItems(entries[..n], split), ItemsOf(entries[n], split));
      ItemsOfOneAddUp(entries[n], split);
    }
  }

  /** The load bound of a configuration with splitting, over the source bytes. */
  lemma SplitMakespan(entries: seq<Entry>, split: nat, m: nat, k: nat)
    requires split > 0 && k < m
    ensures m * Pack(m, AllItems(entries, Some(split))).buckets[k] <= TotalBytes(entries) + (m - 1) * split
  {
    ItemsBoundedBySplit(entries, split);
    ItemsAddUp(entries, Some(split));
    MakespanBounded(m, AllItems(entries, Some(split)), split, k);
  }

  // ---- every item lands on exactly one node ----------------------------

  /** The node and the place in its list that item n gets. */
  function SlotOf(m: nat, items: seq<Xfer>, n: nat): (nat, nat)
    requires m > 0 && n < |items|
  {
    var p := Pack(m, items[..n]);
    var k := MinIndex(p.buckets);
    (k, |p.files[k]|)
  }

  predicate IsSlot(files: seq<seq<Xfer>>, w: int, j: int) {
    0 <= w < |files| && 0 <= j < |files[w]|
  }

  lemma {:induction false} SlotsHoldItems(m: nat, items: seq<Xfer>)
    requires m > 0
    ensures forall n :: 0 <= n < |items| ==>
      var s := SlotOf(m, items, n);
      IsSlot(Pack(m, items).files, s.0, s.1) && Pack(m, items).files[s.0][s.1] == items[n]
  {
    if items != [] {
      var l := |items| - 1;
      var front := items[..l];
      SlotsHoldItems(m, front);
      var p, q := Pack(m, front), Pack(m, items);
      forall n | 0 <= n < |items|
        ensures var s := SlotOf(m, items, n);
          IsSlot(q.files, s.0, s.1) && q.files[s.0][s.1] == items[n]
      {
        if n < l {
          assert items[..n] == front[..n];
          var s := SlotOf(m, front, n);
          assert IsSlot(p.files, s.0, s.1) && p.files[s.0][s.1] == front[n];
        }
      }
    }
  }

  /** Two items never share a place. */
  lemma SlotsDistinct(m: nat, items: seq<Xfer>, a: nat, b: nat)
    requires m > 0 && a < b < |items|
    ensures SlotOf(m, items, a) != SlotOf(m, items, b)
  {
    SlotsHoldItems(m, items[..b]);
    assert items[..b][..a] == items[..a];
    assert SlotOf(m, items[..b], a) == SlotOf(m, items, a);
  }

  /** Every place of every node's list holds one of the items. */
  lemma {:induction false} SlotsCover(m: nat, items: seq<Xfer>, w: nat, j: nat) returns (n: nat)
    requires m > 0 && IsSlot(Pack(m, items).files, w, j)
    ensures n < |items| && SlotOf(m, items, n) == (w, j)
  {
    var l := |items| - 1;
    assert items != [];
    var front := items[..l];
    if SlotOf(m, items, l) == (w, j) {
      n := l;
    } else {
      n := SlotsCover(m, front, w, j);
      assert items[..n] == front[..n];
    }
  }
}
