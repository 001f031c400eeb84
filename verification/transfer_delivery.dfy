/** Which sources arrive intact whatever happens (convoy/data.py). */
module TransferDelivery {
  import opened Common
  import opened Strings
  import opened SplitNames
  import opened Ranges
  import opened Packing
  import opened Transfer
  import opened TransferJoin
  import opened TransferRuns
  import opened EndToEnd
  import opened TransferSuccess
  import opened TransferSolo
  import opened TransferCounting

  // ---- successful runs ---------------------------------------------------

  /** A run over m nodes, with mpt processes each, from the old content `before`,
      at whose end all workers have reported success. */
  ghost predicate Succeeds(
      entries: seq<Entry>, split: Option<nat>, m: nat, mpt: nat, before: map<string, Bytes>,
      states: seq<State>, events: seq<Event>)
    requires split.Some? ==> split.value > 0
  {
    && m > 0 && mpt > 0
    && IsRun(BuildConfig(entries, split, m, mpt), states, events)
    && states[0].remote == before && AllSucceeded(states[|events|])
  }

  lemma LedSucceeds(entries: seq<Entry>, split: Option<nat>, before: map<string, Bytes>, s: State)
      returns (states: seq<State>, events: seq<Event>)
    requires split.Some? ==> split.value > 0
    requires Leads(OneNode(entries, split), before, s) && AllSucceeded(s)
    ensures Succeeds(entries, split, 1, |AllItems(entries, split)| + 1, before, states, events)
    ensures states[|events|] == s
  {
    states, events :| IsRun(OneNode(entries, split), states, events) && states[0].remote == before &&
      states[|events|] == s;
  }

  ghost predicate CanSucceed(entries: seq<Entry>, split: Option<nat>, before: map<string, Bytes>)
    requires split.Some? ==> split.value > 0
  {
    exists m: nat, mpt: nat, states: seq<State>, events: seq<Event> ::
      Succeeds(entries, split, m, mpt, before, states, events)
  }

  ghost predicate IsSplitDst(entries: seq<Entry>, split: Option<nat>, d: string) {
    exists j :: IsSplitEntry(entries, split, j) && entries[j].dst == d
  }

  /** Every split destination is parsed as some split destination. */
  ghost predicate Countable(entries: seq<Entry>, split: Option<nat>) {
    forall i | IsSplitEntry(entries, split, i) :: IsSplitDst(entries, split, TargetOf(entries[i].dst))
  }

  lemma NameCounted(entries: seq<Entry>, split: Option<nat>, i: int, p: nat, lpad: nat)
    requires SourceOk(entries, split) && Countable(entries, split) && IsSplitEntry(entries, split, i)
    ensures TargetOf(PieceName(entries[i].dst, p, lpad)) in CountsOf(entries, split)
  {
    if p == 0 {
      assert IsSplitDst(entries, split, TargetOf(entries[i].dst));
      var l :| IsSplitEntry(entries, split, l) && entries[l].dst == TargetOf(entries[i].dst);
      CountOfEntry(entries, split, l);
    } else {
      TargetOfPiece(entries[i].dst, p, lpad);
      CountOfEntry(entries, split, i);
    }
  }

  lemma CountableParses(entries: seq<Entry>, split: Option<nat>)
    requires SourceOk(entries, split) && Countable(entries, split)
    ensures AllParse(OneNode(entries, split))
  {
    var cfg := OneNode(entries, split);
    OneNodeIsSolo(entries, split);
    forall k, j | 0 <= k < |cfg.files| && 0 <= j < |cfg.files[k]| ensures !Unparsed(cfg, k, j) {
      var i, p := ItemAtPos(entries, split, j);
      ItemName(entries[i], split, p);
      if IsPiece(cfg.files[k][j]) {
        assert IsSplitEntry(entries, split, i);
        NameCounted(entries, split, i, p, PadWidth(NumSplits(entries[i], split)));
      }
    }
  }

  /** The first piece of a split file is reaped in a successful run, so what is
      parsed off its name has a countdown. */
  lemma SuccessIsCounted(
      entries: seq<Entry>, split: Option<nat>, m: nat, mpt: nat, before: map<string, Bytes>,
      states: seq<State>, events: seq<Event>, i: nat)
    requires SourceOk(entries, split) && Succeeds(entries, split, m, mpt, before, states, events)
    requires IsSplitEntry(entries, split, i)
    ensures IsSplitDst(entries, split, TargetOf(entries[i].dst))
  {
    var cfg, s := BuildConfig(entries, split, m, mpt), states[|events|];
    CoreAlongRun(cfg, states, events, |events|);
    CeilDivBounds(|entries[i].content|, split.value);
    var w, j := SlotOfEntry(entries, split, m, mpt, i, 0);
    ItemName(entries[i], split, 0);
    SuccessIsDone(cfg, s, w, j);
    var x := (w, j);
    assert x in Done(s) && IsSlot(cfg.files, x.0, x.1) && IsPiece(cfg.files[x.0][x.1]);
    var l := CountedEntry(entries, split, TargetOf(entries[i].dst));
  }

  /** Some run succeeds exactly when the name that is parsed off the first piece of
      every split file is the destination of a split file: else that piece ends its
      thread. */
  lemma CanSucceedIff(entries: seq<Entry>, split: Option<nat>, before: map<string, Bytes>)
    requires SourceOk(entries, split)
    ensures CanSucceed(entries, split, before) <==> Countable(entries, split)
  {
    if Countable(entries, split) {
      OneNodeIsSolo(entries, split);
      CountableParses(entries, split);
      var s := SomeRun(OneNode(entries, split), before);
      var states, events := LedSucceeds(entries, split, before, s);
    }
    if CanSucceed(entries, split, before) {
      var m: nat, mpt: nat, states: seq<State>, events: seq<Event> :|
        Succeeds(entries, split, m, mpt, before, states, events);
      forall i | IsSplitEntry(entries, split, i) ensures IsSplitDst(entries, split, TargetOf(entries[i].dst)) {
        SuccessIsCounted(entries, split, m, mpt, before, states, events, i);
      }
    }
  }

  // ---- delivery ----------------------------------------------------------

  ghost predicate AllHeld(entries: seq<Entry>, remote: map<string, Bytes>) {
    forall i | 0 <= i < |entries| :: Holds(remote, entries[i].dst, entries[i].content)
  }

  /** Whenever all workers report success, every file is there. */
  ghost predicate AlwaysDelivered(entries: seq<Entry>, split: Option<nat>, before: map<string, Bytes>)
    requires split.Some? ==> split.value > 0
  {
    forall m: nat, mpt: nat, states: seq<State>, events: seq<Event>
      | Succeeds(entries, split, m, mpt, before, states, events) :: AllHeld(entries, states[|events|].remote)
  }

  lemma NotHeld(entries: seq<Entry>, split: Option<nat>, before: map<string, Bytes>, s: State, i: nat)
    requires split.Some? ==> split.value > 0
    requires Leads(OneNode(entries, split), before, s) && AllSucceeded(s)
    requires i < |entries| && !Holds(s.remote, entries[i].dst, entries[i].content)
    ensures !AlwaysDelivered(entries, split, before)
  {
    var states, events := LedSucceeds(entries, split, before, s);
    assert !AllHeld(entries, states[|events|].remote);
  }

  /** A file under the pattern of a joined one is gone at the end of a run in which
      that one is joined last. */
  lemma SiblingLost(entries: seq<Entry>, split: Option<nat>, before: map<string, Bytes>, i: nat, j: nat)
    requires SourceOk(entries, split) && Countable(entries, split)
    requires Joinable(entries, split, i) && j < |entries| && GlobMatch(entries[i].dst, entries[j].dst)
    ensures !AlwaysDelivered(entries, split, before)
  {
    OneNodeIsSolo(entries, split);
    CountableParses(entries, split);
    JoinableCountsDown(entries, split, i);
    var s, r := RunWithLastJoin(OneNode(entries, split), before, entries[i].dst);
    NotHeld(entries, split, before, s, j);
  }

  /** No joined file has another file of the source under its pattern. */
  ghost predicate JoinsApart(entries: seq<Entry>, split: Option<nat>) {
    forall i | Joinable(entries, split, i) :: NoneBeside(entries, entries[i].dst)
  }

  // ---- names without a clash -----------------------------------------------

  lemma {:induction false} StoredAt(files: seq<Xfer>, before: map<string, Bytes>, j: nat)
    requires j < |files| && forall k :: 0 <= k < |files| && k != j ==> files[k].name != files[j].name
    ensures Holds(StoredAll(files, before), files[j].name, Received(files[j]))
  {
    var n := |files| - 1;
    if j < n {
      StoredAt(files[..n], before, j);
    }
  }

  /** A numbered piece that has the name of another file makes that one's name read
      like a piece, under the pattern of a file that is joined. */
  lemma PieceNameTaken(entries: seq<Entry>, split: Option<nat>, i: nat, k: nat, c: nat)
    requires SourceOk(entries, split) && JoinsApart(entries, split)
    requires IsSplitEntry(entries, split, i) && 0 < k && IsSplitEntry(entries, split, c)
    ensures PieceName(entries[i].dst, k, PadWidth(NumSplits(entries[i], split))) != entries[c].dst
  {
    var name := PieceName(entries[i].dst, k, PadWidth(NumSplits(entries[i], split)));
    TargetOfPiece(entries[i].dst, k, PadWidth(NumSplits(entries[i], split)));
    PieceNamesMatch(entries[i].dst, k, PadWidth(NumSplits(entries[i], split)));
    if name == entries[c].dst {
      TargetOfPiece(name, 0, 1);
      assert Misread(entries, split, c);
      assert Joinable(entries, split, i);
    }
  }

  /** The first piece of a split file is the only item of that name. */
  lemma FirstPieceStored(entries: seq<Entry>, split: Option<nat>, before: map<string, Bytes>, c: nat)
    requires SourceOk(entries, split) && JoinsApart(entries, split) && IsSplitEntry(entries, split, c)
    requires NumSplits(entries[c], split) > 0
    ensures Holds(StoredAll(AllItems(entries, split), before), entries[c].dst, Received(ItemsOf(entries[c], split)[0]))
  {
    var items, p := AllItems(entries, split), PosOf(entries, split, c, 0);
    PosItem(entries, split, c, 0);
    ItemName(entries[c], split, 0);
    forall n | 0 <= n < |items| && n != p ensures items[n].name != items[p].name {
      var i, k := ItemAtPos(entries, split, n);
      ItemName(entries[i], split, k);
      if k > 0 {
        assert IsSplitEntry(entries, split, i);
        PieceNameTaken(entries, split, i, k, c);
      }
    }
    StoredAt(items, before, p);
  }

  /** No file of the source has the name of a numbered piece of entry r. */
  ghost predicate NoneIsPiece(entries: seq<Entry>, split: Option<nat>, r: nat)
    requires (split.Some? ==> split.value > 0) && r < |entries|
  {
    forall j | 0 <= j < |entries| :: !IsPieceOf(entries[r].dst, NumSplits(entries[r], split), entries[j].dst)
  }

  lemma NoneBesideIsPiece(entries: seq<Entry>, split: Option<nat>, r: nat)
    requires (split.Some? ==> split.value > 0) && r < |entries| && NoneBeside(entries, entries[r].dst)
    ensures NoneIsPiece(entries, split, r)
  {
    var d, n := entries[r].dst, NumSplits(entries[r], split);
    forall j | 0 <= j < |entries| ensures !IsPieceOf(d, n, entries[j].dst) {
      forall k | 0 < k < n ensures entries[j].dst != PieceName(d, k, PadWidth(n)) {
        PieceNamesMatch(d, k, PadWidth(n));
      }
    }
  }

  /** A split file whose name does not read like a piece has its pieces' names for
      itself. */
  lemma PieceNameOnce(entries: seq<Entry>, split: Option<nat>, r: nat, k: nat, i: nat, l: nat)
    requires SourceOk(entries, split) && IsSplitEntry(entries, split, r) && i < |entries|
    requires NoneIsPiece(entries, split, r) && !LooksLikePiece(entries[r].dst)
    requires k < NumSplits(entries[r], split) && l < NumSplits(entries[i], split)
    requires ItemsOf(entries[r], split)[k].name == ItemsOf(entries[i], split)[l].name
    ensures i == r && l == k
  {
    var d, c, n, m := entries[r].dst, entries[i].dst, NumSplits(entries[r], split), NumSplits(entries[i], split);
    ItemName(entries[r], split, k);
    ItemName(entries[i], split, l);
    TargetOfPiece(d, k, PadWidth(n));
    TargetOfPiece(c, l, PadWidth(m));
    assert l == 0 && k > 0 ==> !IsPieceOf(d, n, c);
    if l > 0 {
      PieceNamesMatch(c, l, PadWidth(m));
    }
    if i == r && l != k {
      PieceNamesInjective(d, l, k, n);
    }
  }

  lemma PieceStored(entries: seq<Entry>, split: Option<nat>, before: map<string, Bytes>, r: nat, k: nat)
    requires SourceOk(entries, split) && IsSplitEntry(entries, split, r)
    requires NoneIsPiece(entries, split, r) && !LooksLikePiece(entries[r].dst)
    requires k < NumSplits(entries[r], split)
    ensures Holds(StoredAll(AllItems(entries, split), before),
      PieceName(entries[r].dst, k, PadWidth(NumSplits(entries[r], split))),
      PieceContents(entries[r].content, split.value)[k])
  {
    var items, p := AllItems(entries, split), PosOf(entries, split, r, k);
    PosItem(entries, split, r, k);
    ItemName(entries[r], split, k);
    forall n | 0 <= n < |items| && n != p ensures items[n].name != items[p].name {
      var i, l := ItemAtPos(entries, split, n);
      if items[n].name == items[p].name {
        PieceNameOnce(entries, split, r, k, i, l);
      }
    }
    StoredAt(items, before, p);
    ReceivedIsContent(entries[r], split, k);
  }

  /** No other join reaches them. */
  lemma PieceUnreached(entries: seq<Entry>, split: Option<nat>, r: nat, k: nat)
    requires SourceOk(entries, split) && JoinsApart(entries, split) && Joinable(entries, split, r)
    requires k < NumSplits(entries[r], split)
    ensures Unreached(OneNode(entries, split), Some(entries[r].dst),
      PieceName(entries[r].dst, k, PadWidth(NumSplits(entries[r], split))))
  {
    var d, n := entries[r].dst, NumSplits(entries[r], split);
    var name := PieceName(d, k, PadWidth(n));
    if k > 0 {
      PieceNamesMatch(d, k, PadWidth(n));
    }
    forall c | CountsDown(OneNode(entries, split), c) && c != d ensures name != c && !GlobMatch(c, name) {
      CountsDownIff(entries, split, c);
      var e :| Joinable(entries, split, e) && entries[e].dst == c;
      assert NoneBeside(entries, c) && NoneBeside(entries, d);
      if GlobMatch(c, name) {
        PieceOfOther(c, d, k, PadWidth(n));
      }
    }
  }

  lemma HeldLength(file: Bytes, split: nat, remote: map<string, Bytes>, d: string)
    requires 0 < split < |file| && split % MAX_READ_BLOCKSIZE_BYTES != 0
    requires |PieceContents(file, split)| > 0 && PiecesHeld(remote, d, PieceContents(file, split))
    ensures !Holds(JoinFiles(remote, d), d, file)
  {
    JoinIntactIff(remote, d, PieceContents(file, split));
    ReassembledIffAligned(file, split);
    ReassembledLength(file, split);
  }

  /** A joined file that is misaligned arrives longer than it is. */
  lemma MisalignedLost(entries: seq<Entry>, split: Option<nat>, before: map<string, Bytes>, r: nat)
    requires SourceOk(entries, split) && Countable(entries, split) && JoinsApart(entries, split)
    requires IsSplitEntry(entries, split, r) && !LooksLikePiece(entries[r].dst)
    requires split.value % MAX_READ_BLOCKSIZE_BYTES != 0
    ensures !AlwaysDelivered(entries, split, before)
  {
    var e, d, n := entries[r], entries[r].dst, NumSplits(entries[r], split);
    assert Joinable(entries, split, r) && NoneBeside(entries, d);
    NoneBesideIsPiece(entries, split, r);
    OneNodeIsSolo(entries, split);
    CountableParses(entries, split);
    JoinableCountsDown(entries, split, r);
    CountOfEntry(entries, split, r);
    var s, remote := RunWithLastJoin(OneNode(entries, split), before, d);
    forall k | 0 <= k < n ensures Holds(remote, PieceName(d, k, PadWidth(n)), PieceContents(e.content, split.value)[k]) {
      PieceUnreached(entries, split, r, k);
      PieceStored(entries, split, before, r, k);
      assert SameAt(StoredAll(AllItems(entries, split), before), remote, PieceName(d, k, PadWidth(n)));
    }
    HeldLength(e.content, split.value, remote, d);
    NotHeld(entries, split, before, s, r);
  }

  // ---- destinations that read like pieces ----------------------------------

  /** The first piece of an aligned split is a proper part of the file. */
  lemma FirstPieceIsShort(e: Entry, split: Option<nat>)
    requires (split.Some? ==> split.value > 0) && IsSplit(|e.content|, split)
    requires split.value % MAX_READ_BLOCKSIZE_BYTES == 0
    ensures NumSplits(e, split) > 0 && Received(ItemsOf(e, split)[0]) != e.content
  {
    CeilDivBounds(|e.content|, split.value);
    ReceivedIsContent(e, split, 0);
    SentWhenAligned(e.content, split.value, 0);
  }

  lemma UnjoinedUnreached(entries: seq<Entry>, split: Option<nat>, c: nat)
    requires SourceOk(entries, split) && JoinsApart(entries, split)
    requires IsSplitEntry(entries, split, c) && !Joinable(entries, split, c)
    ensures Unreached(OneNode(entries, split), None, entries[c].dst)
  {
    forall d | CountsDown(OneNode(entries, split), d) ensures entries[c].dst != d && !GlobMatch(d, entries[c].dst) {
      CountsDownIff(entries, split, d);
      var e :| Joinable(entries, split, e) && entries[e].dst == d;
      assert NoneBeside(entries, d) && e != c;
    }
  }

  /** A split file that is never joined is left with its first piece. */
  lemma UnjoinedLost(entries: seq<Entry>, split: Option<nat>, before: map<string, Bytes>, c: nat)
    requires SourceOk(entries, split) && Countable(entries, split) && JoinsApart(entries, split)
    requires IsSplitEntry(entries, split, c) && !Joinable(entries, split, c)
    requires split.value % MAX_READ_BLOCKSIZE_BYTES == 0
    ensures !AlwaysDelivered(entries, split, before)
  {
    OneNodeIsSolo(entries, split);
    CountableParses(entries, split);
    UnjoinedUnreached(entries, split, c);
    var s := SomeRun(OneNode(entries, split), before);
    FirstPieceIsShort(entries[c], split);
    FirstPieceStored(entries, split, before, c);
    assert SameAt(StoredAll(AllItems(entries, split), before), s.remote, entries[c].dst);
    NotHeld(entries, split, before, s, c);
  }

  /** Of the destinations that read like pieces, the longest one is never joined. */
  lemma {:induction false} LongestMisread(entries: seq<Entry>, split: Option<nat>, n: nat) returns (c: nat)
    requires n <= |entries| && exists i :: 0 <= i < n && Misread(entries, split, i)
    ensures Misread(entries, split, c)
    ensures forall i :: 0 <= i < n && Misread(entries, split, i) ==> |entries[i].dst| <= |entries[c].dst|
  {
    c := n - 1;
    if i :| 0 <= i < n - 1 && Misread(entries, split, i) {
      c := LongestMisread(entries, split, n - 1);
      if Misread(entries, split, n - 1) && |entries[n - 1].dst| > |entries[c].dst| {
        c := n - 1;
      }
    }
  }

  lemma LongestIsUnjoined(entries: seq<Entry>, split: Option<nat>, c: nat)
    requires Misread(entries, split, c)
    requires forall i :: 0 <= i < |entries| && Misread(entries, split, i) ==> |entries[i].dst| <= |entries[c].dst|
    ensures !Joinable(entries, split, c)
  {
    if b :| Misread(entries, split, b) && TargetOf(entries[b].dst) == entries[c].dst {
      StrippedIsShorter(entries[b].dst);
    }
  }

  /** Stripping leads from a destination that reads like a piece to one that does
      not. */
  lemma {:induction false} RootOf(entries: seq<Entry>, split: Option<nat>, c: int) returns (r: int)
    requires SourceOk(entries, split) && Countable(entries, split) && IsSplitEntry(entries, split, c)
    ensures IsSplitEntry(entries, split, r) && !LooksLikePiece(entries[r].dst)
    decreases |entries[c].dst|
  {
    r := c;
    if LooksLikePiece(entries[c].dst) {
      StrippedIsShorter(entries[c].dst);
      assert IsSplitDst(entries, split, TargetOf(entries[c].dst));
      var j :| IsSplitEntry(entries, split, j) && entries[j].dst == TargetOf(entries[c].dst);
      r := RootOf(entries, split, j);
    }
  }

  // ---- the theorem -------------------------------------------------------

  /** What has to hold of entry i, and can be checked before the transfer. */
  ghost predicate SafeToSplit(entries: seq<Entry>, split: Option<nat>, before: map<string, Bytes>, i: int)
    requires 0 <= i < |entries| && (split.Some? ==> split.value > 0)
  {
    IsSplitEntry(entries, split, i) ==>
      && split.value % MAX_READ_BLOCKSIZE_BYTES == 0
      && !LooksLikePiece(entries[i].dst)
      && NoneBeside(entries, entries[i].dst)
      && CleanBefore(entries[i], split, before)
  }

  ghost predicate AllSafe(entries: seq<Entry>, split: Option<nat>, before: map<string, Bytes>)
    requires split.Some? ==> split.value > 0
  {
    forall i | 0 <= i < |entries| :: SafeToSplit(entries, split, before, i)
  }

  lemma PlainNames(entries: seq<Entry>, split: Option<nat>)
    requires NoneUnder(entries, split) && forall i :: !Misread(entries, split, i)
    ensures NoSiblings(entries, split) && Countable(entries, split)
  {
    forall i | IsSplitEntry(entries, split, i) ensures IsSplitDst(entries, split, TargetOf(entries[i].dst)) {
      assert !Misread(entries, split, i);
      TargetOfPiece(entries[i].dst, 0, 1);
    }
    forall i, j | IsSplitEntry(entries, split, i) && IsSplitEntry(entries, split, j)
      ensures !ReadsAsPieceOf(entries[i].dst, entries[j].dst)
    {
      assert !Misread(entries, split, j);
    }
  }

  lemma SafeIsDelivered(entries: seq<Entry>, split: Option<nat>, before: map<string, Bytes>)
    requires SourceOk(entries, split) && AllSafe(entries, split, before)
    ensures AlwaysDelivered(entries, split, before)
  {
    forall i ensures !Misread(entries, split, i) {
      assert 0 <= i < |entries| ==> SafeToSplit(entries, split, before, i);
    }
    forall i | 0 <= i < |entries| && IsSplitEntry(entries, split, i) ensures NoneBeside(entries, entries[i].dst) {
      assert SafeToSplit(entries, split, before, i);
    }
    PlainNames(entries, split);
    forall m: nat, mpt: nat, states: seq<State>, events: seq<Event>
      | Succeeds(entries, split, m, mpt, before, states, events)
      ensures AllHeld(entries, states[|events|].remote)
    {
      TransferEndToEnd(entries, split, m, mpt, states, events);
      forall i | 0 <= i < |entries| ensures Holds(states[|events|].remote, entries[i].dst, entries[i].content) {
        assert SafeToSplit(entries, split, before, i);
        assert Delivered(entries[i], split, before, states[|events|].remote);
      }
    }
  }

  /** An old file with some content that is taken by a join leaves a file too long,
      in every successful run. */
  lemma UncleanLost(entries: seq<Entry>, split: Option<nat>, before: map<string, Bytes>, i: nat)
    requires SourceOk(entries, split) && NoSiblings(entries, split) && Countable(entries, split)
    requires i < |entries| && !CleanBefore(entries[i], split, before)
    ensures !AlwaysDelivered(entries, split, before)
  {
    CanSucceedIff(entries, split, before);
    var m: nat, mpt: nat, states: seq<State>, events: seq<Event> :|
      Succeeds(entries, split, m, mpt, before, states, events);
    TransferEndToEnd(entries, split, m, mpt, states, events);
    assert Delivered(entries[i], split, before, states[|events|].remote);
    assert !AllHeld(entries, states[|events|].remote);
  }

  lemma NotApartLost(entries: seq<Entry>, split: Option<nat>, before: map<string, Bytes>)
    requires SourceOk(entries, split) && Countable(entries, split) && !JoinsApart(entries, split)
    ensures !AlwaysDelivered(entries, split, before)
  {
    var i :| Joinable(entries, split, i) && !NoneBeside(entries, entries[i].dst);
    var j :| 0 <= j < |entries| && GlobMatch(entries[i].dst, entries[j].dst);
    SiblingLost(entries, split, before, i, j);
  }

  lemma MisreadLost(entries: seq<Entry>, split: Option<nat>, before: map<string, Bytes>, k: nat)
    requires SourceOk(entries, split) && Countable(entries, split) && JoinsApart(entries, split)
    requires Misread(entries, split, k) && split.value % MAX_READ_BLOCKSIZE_BYTES == 0
    ensures !AlwaysDelivered(entries, split, before)
  {
    var c := LongestMisread(entries, split, |entries|);
    LongestIsUnjoined(entries, split, c);
    UnjoinedLost(entries, split, before, c);
  }

  lemma ApartIsNoneUnder(entries: seq<Entry>, split: Option<nat>)
    requires JoinsApart(entries, split) && forall k :: !Misread(entries, split, k)
    ensures NoneUnder(entries, split)
  {
    forall k | 0 <= k < |entries| && IsSplitEntry(entries, split, k) ensures NoneBeside(entries, entries[k].dst) {
      assert !Misread(entries, split, k) && Joinable(entries, split, k);
    }
  }

  lemma UnsafeIsLost(entries: seq<Entry>, split: Option<nat>, before: map<string, Bytes>, i: nat)
    requires SourceOk(entries, split) && Countable(entries, split)
    requires i < |entries| && !SafeToSplit(entries, split, before, i)
    ensures !AlwaysDelivered(entries, split, before)
  {
    if !JoinsApart(entries, split) {
      NotApartLost(entries, split, before);
    } else if split.value % MAX_READ_BLOCKSIZE_BYTES != 0 {
      var r := RootOf(entries, split, i);
      MisalignedLost(entries, split, before, r);
    } else if k :| Misread(entries, split, k) {
      MisreadLost(entries, split, before, k);
    } else {
      PlainUnsafe(entries, split, before, i);
    }
  }

  lemma PlainUnsafe(entries: seq<Entry>, split: Option<nat>, before: map<string, Bytes>, i: nat)
    requires SourceOk(entries, split) && JoinsApart(entries, split) && forall k :: !Misread(entries, split, k)
    requires i < |entries| && !SafeToSplit(entries, split, before, i)
    requires split.value % MAX_READ_BLOCKSIZE_BYTES == 0
    ensures !AlwaysDelivered(entries, split, before)
  {
    ApartIsNoneUnder(entries, split);
    PlainNames(entries, split);
    assert !Misread(entries, split, i) && NoneBeside(entries, entries[i].dst);
    UncleanLost(entries, split, before, i);
  }

  /** For every source and every old content of the destination: all successful runs,
      over any number of nodes, with any parallelism and any interleaving, deliver all
      files if and only if no run can succeed, or every split file is block aligned,
      has a destination that does not read like a piece, and has nothing under its
      pattern, neither another file of the source nor an old one with any content that
      is not overwritten. */
  lemma AlwaysDeliveredIff(entries: seq<Entry>, split: Option<nat>, before: map<string, Bytes>)
    requires SourceOk(entries, split)
    ensures AlwaysDelivered(entries, split, before) <==>
            !Countable(entries, split) || AllSafe(entries, split, before)
  {
    if !Countable(entries, split) {
      CanSucceedIff(entries, split, before);
    } else if i :| 0 <= i < |entries| && !SafeToSplit(entries, split, before, i) {
      UnsafeIsLost(entries, split, before, i);
    } else {
      SafeIsDelivered(entries, split, before);
    }
  }

  // ---- a file beside a large one -------------------------------------------

  /** A small file for `d.u` beside a large one for d. */
  function Beside(d: string, u: string, c: Bytes, big: Bytes): seq<Entry> {
    [Entry(d + "." + u, c), Entry(d, big)]
  }

  predicate IsBeside(d: string, u: string, c: Bytes, big: Bytes, split: nat) {
    && d != "" && !LooksLikePiece(d) && '/' !in u && !(SPLIT_PREFIX <= u)
    && 0 < |c| <= split < |big| && split % MAX_READ_BLOCKSIZE_BYTES == 0
  }

  lemma BesideFacts(d: string, u: string, c: Bytes, big: Bytes, split: nat)
    requires IsBeside(d, u, c, big, split)
    ensures var entries := Beside(d, u, c, big);
      && SourceOk(entries, Some(split)) && Countable(entries, Some(split)) && Joinable(entries, Some(split), 1)
      && !IsSplitEntry(entries, Some(split), 0) && GlobMatch(d, d + "." + u)
      && NoneIsPiece(entries, Some(split), 1)
  {
    var entries, n := Beside(d, u, c, big), NumSplits(Entry(d, big), Some(split));
    assert (d + "." + u)[|d| + 1..] == u;
    TargetOfPiece(d, 0, 1);
    assert IsSplitEntry(entries, Some(split), 1);
    forall k | 0 < k < n ensures d + "." + u != PieceName(d, k, PadWidth(n)) && d != PieceName(d, k, PadWidth(n)) {
      PrependInjective(d + ".", u, PieceSuffix(k, PadWidth(n)));
    }
  }

  lemma BesideUnreached(d: string, u: string, c: Bytes, big: Bytes, split: nat, x: string)
    requires IsBeside(d, u, c, big, split)
    ensures SourceOk(Beside(d, u, c, big), Some(split))
    ensures Unreached(OneNode(Beside(d, u, c, big), Some(split)), Some(d), x)
  {
    var entries := Beside(d, u, c, big);
    BesideFacts(d, u, c, big, split);
    forall e | e in CountsOf(entries, Some(split)) ensures e == d {
      var i := CountedEntry(entries, Some(split), e);
    }
  }

  lemma SmallStored(d: string, u: string, c: Bytes, big: Bytes, split: nat)
    requires IsBeside(d, u, c, big, split)
    ensures Holds(StoredAll(AllItems(Beside(d, u, c, big), Some(split)), map[]), d + "." + u, c)
  {
    var entries := Beside(d, u, c, big);
    var items := AllItems(entries, Some(split));
    BesideFacts(d, u, c, big, split);
    PosItem(entries, Some(split), 0, 0);
    assert entries[..0] == [];
    forall n | 0 <= n < |items| && n != 0 ensures items[n].name != items[0].name {
      var i, k := ItemAtPos(entries, Some(split), n);
      ItemName(entries[i], Some(split), k);
      assert k > 0 ==> i == 1 && IsPieceOf(d, NumSplits(entries[1], Some(split)), items[n].name);
    }
    StoredAt(items, map[], 0);
  }

  /** What the last join of that run finds. */
  lemma BesideStored(d: string, u: string, c: Bytes, big: Bytes, split: nat, remote: map<string, Bytes>)
    requires IsBeside(d, u, c, big, split)
    requires forall x :: SameAt(StoredAll(AllItems(Beside(d, u, c, big), Some(split)), map[]), remote, x)
    ensures PiecesHeld(remote, d, PieceContents(big, split)) && Holds(remote, d + "." + u, c)
  {
    var entries := Beside(d, u, c, big);
    var stored, n := StoredAll(AllItems(entries, Some(split)), map[]), NumSplits(entries[1], Some(split));
    BesideFacts(d, u, c, big, split);
    SmallStored(d, u, c, big, split);
    assert SameAt(stored, remote, d + "." + u);
    forall k | 0 <= k < n ensures Holds(remote, PieceName(d, k, PadWidth(n)), PieceContents(big, split)[k]) {
      PieceStored(entries, Some(split), map[], 1, k);
      assert SameAt(stored, remote, PieceName(d, k, PadWidth(n)));
    }
  }

  lemma BesideJoined(d: string, u: string, c: Bytes, big: Bytes, split: nat, remote: map<string, Bytes>)
    requires IsBeside(d, u, c, big, split)
    requires PiecesHeld(remote, d, PieceContents(big, split)) && Holds(remote, d + "." + u, c)
    ensures (d + "." + u) !in JoinFiles(remote, d)
    ensures d in JoinFiles(remote, d) && |JoinFiles(remote, d)[d]| > |big|
  {
    var x, entries := d + "." + u, Beside(d, u, c, big);
    BesideFacts(d, u, c, big, split);
    CeilDivBounds(|big|, split);
    assert !IsPieceOf(entries[1].dst, NumSplits(entries[1], Some(split)), entries[0].dst);
    assert x in Matches(remote, d);
    JoinIntactIff(remote, d, PieceContents(big, split));
    ReassembledIffAligned(big, split);
  }

  ghost predicate Swallowed(d: string, x: string, big: Bytes, after: map<string, Bytes>) {
    x !in after && d in after && |after[d]| > |big|
  }

  lemma BesideRun(d: string, u: string, c: Bytes, big: Bytes, split: nat) returns (s: State)
    requires IsBeside(d, u, c, big, split)
    ensures SourceOk(Beside(d, u, c, big), Some(split))
    ensures Leads(OneNode(Beside(d, u, c, big), Some(split)), map[], s) && AllSucceeded(s)
    ensures Swallowed(d, d + "." + u, big, s.remote)
  {
    var entries := Beside(d, u, c, big);
    var cfg := OneNode(entries, Some(split));
    BesideFacts(d, u, c, big, split);
    OneNodeIsSolo(entries, Some(split));
    CountableParses(entries, Some(split));
    JoinableCountsDown(entries, Some(split), 1);
    var remote;
    s, remote := RunWithLastJoin(cfg, map[], d);
    forall x ensures SameAt(StoredAll(cfg.files[0], map[]), remote, x) {
      BesideUnreached(d, u, c, big, split, x);
    }
    BesideStored(d, u, c, big, split, remote);
    BesideJoined(d, u, c, big, split, remote);
  }

  /** The checksum of a large file beside it: there is a successful run, from an empty
      destination, after which the checksum is gone and the large file, though its split
      is aligned, has become longer. */
  lemma FileBesideIsSwallowed(d: string, u: string, c: Bytes, big: Bytes, split: nat)
      returns (states: seq<State>, events: seq<Event>)
    requires IsBeside(d, u, c, big, split)
    ensures var entries := Beside(d, u, c, big);
      && Succeeds(entries, Some(split), 1, |AllItems(entries, Some(split))| + 1, map[], states, events)
      && Intact(entries[1], Some(split)) && CleanBefore(entries[1], Some(split), map[])
      && Swallowed(d, d + "." + u, big, states[|events|].remote)
  {
    var s := BesideRun(d, u, c, big, split);
    states, events := LedSucceeds(Beside(d, u, c, big), Some(split), map[], s);
  }

  /** For instance `a.b`, of one byte, beside `a` of two blocks. */
  lemma ChecksumIsSwallowed(big: Bytes) returns (states: seq<State>, events: seq<Event>)
    requires |big| == 8388608
    ensures var entries := [Entry("a.b", [7]), Entry("a", big)];
      && Succeeds(entries, Some(4194304), 1, 4, map[], states, events)
      && "a.b" !in states[|events|].remote && !Holds(states[|events|].remote, "a", big)
  {
    var d, u := ['a'], ['b'];
    assert d + "." + u == "a.b";
    SingleIsPlain('a');
    assert u[0] != SPLIT_PREFIX[0];
    states, events := FileBesideIsSwallowed(d, u, [7], big, 4194304);
    BesideItems(big);
  }

  lemma SingleIsPlain(c: char)
    requires c != '.' && c != '_'
    ensures !LooksLikePiece([c])
  {
    CharAbsent('.', [c]);
    SplitFromAbsent([c], ".", []);
  }

  lemma BesideItems(big: Bytes)
    requires |big| == 8388608
    ensures |AllItems([Entry("a.b", [7]), Entry("a", big)], Some(4194304))| == 3
  {
    var entries := [Entry("a.b", [7]), Entry("a", big)];
    CeilDivUnique(8388608, 4194304, 2);
    AllItemsSnoc(entries, Some(4194304), 0);
    AllItemsSnoc(entries, Some(4194304), 1);
    assert entries[..0] == [] && entries[..2] == entries;
  }
}
