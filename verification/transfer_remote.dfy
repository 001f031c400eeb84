/** What the transfers and joins leave at the destination. */
module TransferRemote {
  import opened Common
  import opened SplitNames
  import opened Packing
  import opened Transfer
  import opened TransferInvariant
  import opened TransferJoin

  // ---- consequences of the invariant -----------------------------------

  /** A countdown at zero means every piece has been reaped with code 0, and
      that the name parser recognised all of them. */
  lemma AllPiecesDone(cfg: Config, pieces: map<string, seq<Bytes>>, s: State, d: string)
    requires PlanOk(cfg, pieces) && CountsInv(cfg, s)
    requires d in s.counts && s.counts[d] == 0
    ensures d in pieces && PieceSet(cfg, d) <= Done(s) && !LooksLikePiece(d)
  {
    PlanSizes(cfg, pieces, d);
    assert CountMatches(cfg, s.counts, Done(s), d);
    ZeroCoversAll(Done(s), PieceSet(cfg, d), cfg.counts[d], s.counts[d]);
  }

  lemma ZeroCoversAll(done: set<(int, int)>, ps: set<(int, int)>, total: int, left: int)
    requires left == total - |done * ps| && |ps| <= total && left == 0
    ensures ps <= done && |ps| == total
  {
    SubsetSize(done * ps, ps);
  }

  lemma DoneIsCopied(cfg: Config, s: State, w: int, j: int)
    requires WorkersInv(cfg, s) && (w, j) in Done(s)
    ensures CopiedOk(s, w, j) && IsSlot(cfg.files, w, j)
  {
    assert WorkerInv(cfg.mpt, cfg.files[w], s.workers[w]);
  }

  /** The slot of a piece, and that it belongs to the set of its destination
      when the destination does not read like a piece. */
  lemma PieceSlotOf(cfg: Config, pieces: map<string, seq<Bytes>>, d: string, i: nat)
      returns (w: int, j: int)
    requires PlanOk(cfg, pieces) && d in pieces && i < |pieces[d]| && !LooksLikePiece(d)
    ensures PieceSlot(cfg, w, j, d, i, |pieces[d]|, pieces[d][i])
    ensures (w, j) in PieceSet(cfg, d)
  {
    assert PiecePlaced(cfg, d, i, |pieces[d]|, pieces[d][i]);
    w, j :| PieceSlot(cfg, w, j, d, i, |pieces[d]|, pieces[d][i]);
    TargetOfPiece(d, i, PadWidth(|pieces[d]|));
  }

  /** An item outside the piece set of d is out of reach of d's join. */
  lemma OutOfReach(cfg: Config, pieces: map<string, seq<Bytes>>, d: string, w: int, j: int)
    requires PlanOk(cfg, pieces) && d in pieces && !LooksLikePiece(d)
    requires IsSlot(cfg.files, w, j) && (w, j) !in PieceSet(cfg, d)
    ensures cfg.files[w][j].name != d && !GlobMatch(d, cfg.files[w][j].name)
  {
    var x := cfg.files[w][j];
    assert ItemOk(x, pieces);
    var w0, j0 := PieceSlotOf(cfg, pieces, d, 0);
    assert cfg.files[w0][j0].name == d;
  }

  /** Items under the pattern of d are its pieces. */
  lemma ItemsUnderPattern(cfg: Config, pieces: map<string, seq<Bytes>>, d: string, x: string)
    requires ItemsOk(cfg, pieces) && d in pieces && IsItemName(cfg, x) && GlobMatch(d, x)
    ensures IsPieceOf(d, |pieces[d]|, x)
  {
    var w, j :| IsSlot(cfg.files, w, j) && cfg.files[w][j].name == x;
    assert ItemOk(cfg.files[w][j], pieces);
    var i :| 0 <= i < |pieces[d]| && x == PieceName(d, i, PadWidth(|pieces[d]|));
    assert i > 0;
  }

  lemma DstIsItem(cfg: Config, pieces: map<string, seq<Bytes>>, d: string)
    requires PlanOk(cfg, pieces) && d in pieces
    ensures IsItemName(cfg, d)
  {
    assert PiecePlaced(cfg, d, 0, |pieces[d]|, pieces[d][0]);
    var w, j :| PieceSlot(cfg, w, j, d, 0, |pieces[d]|, pieces[d][0]);
  }

  lemma JoinRunning(s: State, k: nat, m: nat)
    requires JoinsInv(s) && k < |s.workers| && m < |s.workers[k].joins|
    requires s.workers[k].joins[m].status == Running
    ensures !JoinEnded(s, s.workers[k].joins[m].dst) && !Joined(s, s.workers[k].joins[m].dst)
  {
    assert IsJoin(s, k, m, s.workers[k].joins[m].dst);
  }

  /** While the join of d runs, every piece of d is in place. */
  lemma PiecesInPlace(
      cfg: Config, pieces: map<string, seq<Bytes>>, before: map<string, Bytes>, s: State, d: string, i: nat)
    requires Inv(cfg, pieces, before, s)
    requires d in s.counts && s.counts[d] == 0 && !JoinEnded(s, d) && d in pieces && i < |pieces[d]|
    ensures Holds(s.remote, PieceName(d, i, PadWidth(|pieces[d]|)), pieces[d][i])
  {
    AllPiecesDone(cfg, pieces, s, d);
    var w, j := PieceSlotOf(cfg, pieces, d, i);
    DoneIsCopied(cfg, s, w, j);
    assert ItemStored(s, cfg.files[w][j]);
  }

  // ---- preservation ----------------------------------------------------

  lemma QuietStep(cfg: Config, pieces: map<string, seq<Bytes>>, before: map<string, Bytes>, s: State, s': State)
    requires RemoteInv(cfg, pieces, before, s) && s'.remote == s.remote && s'.counts.Keys == s.counts.Keys
    requires forall w, j :: CopiedOk(s', w, j) ==> CopiedOk(s, w, j)
    requires forall d :: Joined(s', d) ==> Joined(s, d)
    requires forall d :: JoinEnded(s, d) ==> JoinEnded(s', d)
    ensures RemoteInv(cfg, pieces, before, s')
  {
    forall w, j | CopiedOk(s', w, j) && IsSlot(cfg.files, w, j) ensures ItemStored(s', cfg.files[w][j]) {
      assert ItemStored(s, cfg.files[w][j]);
    }
    forall d | d in pieces && Joined(s', d) ensures JoinStored(s', pieces, before, d) {
      assert JoinStored(s, pieces, before, d);
    }
    forall x | !IsItemName(cfg, x) ensures OtherKept(before, s', x) {
      assert OtherKept(before, s, x);
      SweptStays(s, s', x);
    }
  }

  lemma SweptStays(s: State, s': State, x: string)
    requires forall d :: JoinEnded(s, d) ==> JoinEnded(s', d)
    ensures Swept(s, x) ==> Swept(s', x)
  {
  }

  /** Steps other than exits change neither a status nor the destination. */
  lemma StatusKept(cfg: Config, s: State, e: Event, s': State)
    requires Step(cfg, s, e, s') && !e.Exit?
    ensures s'.remote == s.remote && s'.counts.Keys == s.counts.Keys && |s'.workers| == |s.workers|
    ensures forall w :: 0 <= w < |s.workers| ==> StatusesKept(s.workers[w], s'.workers[w])
  {
  }

  predicate StatusesKept(w: Worker, v: Worker) {
    && |w.xfers| <= |v.xfers| && |w.joins| <= |v.joins|
    && (forall j :: 0 <= j < |v.xfers| ==> v.xfers[j] == if j < |w.xfers| then w.xfers[j] else Running)
    && (forall m :: 0 <= m < |w.joins| ==> v.joins[m] == w.joins[m])
    && (forall m :: |w.joins| <= m < |v.joins| ==> v.joins[m].status == Running)
  }

  lemma QuietJoins(s: State, s': State)
    requires |s'.workers| == |s.workers|
    requires forall w :: 0 <= w < |s.workers| ==> StatusesKept(s.workers[w], s'.workers[w])
    ensures forall w, j :: CopiedOk(s', w, j) ==> CopiedOk(s, w, j)
    ensures forall d :: Joined(s', d) ==> Joined(s, d)
    ensures forall d :: JoinEnded(s, d) ==> JoinEnded(s', d)
  {
    forall d | Joined(s', d) ensures Joined(s, d) {
      var w, m :| IsJoin(s', w, m, d) && s'.workers[w].joins[m].status == Exited(0);
      assert StatusesKept(s.workers[w], s'.workers[w]);
      assert IsJoin(s, w, m, d) && s.workers[w].joins[m].status == Exited(0);
    }
    forall d | JoinEnded(s, d) ensures JoinEnded(s', d) {
      var w, m :| IsJoin(s, w, m, d) && s.workers[w].joins[m].status.Exited?;
      assert StatusesKept(s.workers[w], s'.workers[w]);
      assert IsJoin(s', w, m, d) && s'.workers[w].joins[m].status.Exited?;
    }
    forall w, j | CopiedOk(s', w, j) ensures CopiedOk(s, w, j) {
      assert StatusesKept(s.workers[w], s'.workers[w]);
    }
  }

  /** After a transfer has exited. */
  lemma CopyExitStep(
      cfg: Config, pieces: map<string, seq<Bytes>>, before: map<string, Bytes>,
      s: State, k: nat, j: nat, code: int, s': State)
    requires Inv(cfg, pieces, before, s) && k < |s.workers|
    requires ExitStep(cfg, s, k, Copy(j), code, s')
    ensures RemoteInv(cfg, pieces, before, s')
  {
    var x := cfg.files[k][j];
    assert IsSlot(cfg.files, k, j) && !CopiedOk(s, k, j);
    assert forall y :: y != x.name ==> SameAt(s.remote, s'.remote, y);
    CopyExitJoins(s, k, j, code, s');
    forall w, i | CopiedOk(s', w, i) && IsSlot(cfg.files, w, i) ensures ItemStored(s', cfg.files[w][i]) {
      if w == k && i == j {
      } else {
        assert CopiedOk(s, w, i) && ItemStored(s, cfg.files[w][i]);
        assert cfg.files[w][i].name != x.name;
        assert SameAt(s.remote, s'.remote, cfg.files[w][i].name);
      }
    }
    forall d | d in pieces && Joined(s', d) ensures JoinStored(s', pieces, before, d) {
      CopyExitJoined(cfg, pieces, before, s, k, j, s', d);
    }
    assert IsItemName(cfg, x.name);
    forall y | !IsItemName(cfg, y) ensures OtherKept(before, s', y) {
      assert OtherKept(before, s, y) && SameAt(s.remote, s'.remote, y);
      SweptStays(s, s', y);
    }
  }

  /** A transfer that ends after the join of d was for another destination. */
  lemma CopyExitJoined(
      cfg: Config, pieces: map<string, seq<Bytes>>, before: map<string, Bytes>,
      s: State, k: nat, j: nat, s': State, d: string)
    requires Inv(cfg, pieces, before, s) && IsSlot(cfg.files, k, j) && !CopiedOk(s, k, j)
    requires d in pieces && Joined(s, d)
    requires forall y :: y != cfg.files[k][j].name ==> SameAt(s.remote, s'.remote, y)
    ensures JoinStored(s', pieces, before, d)
  {
    assert JoinStored(s, pieces, before, d);
    var w, m :| IsJoin(s, w, m, d);
    AllPiecesDone(cfg, pieces, s, d);
    if (k as int, j as int) in PieceSet(cfg, d) {
      DoneIsCopied(cfg, s, k, j);
    }
    OutOfReach(cfg, pieces, d, k, j);
    assert SameAt(s.remote, s'.remote, d);
    forall y | y in s'.remote ensures !GlobMatch(d, y) {
      assert y == cfg.files[k][j].name || SameAt(s.remote, s'.remote, y);
    }
  }

  lemma CopyExitJoins(s: State, k: nat, j: nat, code: int, s': State)
    requires k < |s.workers| && j < |s.workers[k].xfers|
    requires s'.workers == s.workers[k := WithExit(s.workers[k], Copy(j), code)]
    ensures forall w, i :: CopiedOk(s', w, i) ==> CopiedOk(s, w, i) || (w == k && i == j && code == 0)
    ensures forall d :: Joined(s', d) <==> Joined(s, d)
    ensures forall d :: JoinEnded(s', d) <==> JoinEnded(s, d)
  {
    assert forall w, m, d :: IsJoin(s', w, m, d) <==> IsJoin(s, w, m, d);
    assert forall w :: 0 <= w < |s.workers| ==> s'.workers[w].joins == s.workers[w].joins;
    forall d ensures Joined(s', d) <==> Joined(s, d) {
      if Joined(s, d) {
        var w, m :| IsJoin(s, w, m, d) && s.workers[w].joins[m].status == Exited(0);
        assert IsJoin(s', w, m, d);
      }
    }
    forall d ensures JoinEnded(s', d) <==> JoinEnded(s, d) {
      if JoinEnded(s, d) {
        var w, m :| IsJoin(s, w, m, d) && s.workers[w].joins[m].status.Exited?;
        assert IsJoin(s', w, m, d);
      }
    }
  }

  lemma JoinExitJoins(s: State, k: nat, m: nat, code: int, s': State)
    requires JoinsInv(s)
    requires k < |s.workers| && m < |s.workers[k].joins| && s.workers[k].joins[m].status == Running
    requires s'.workers == s.workers[k := WithExit(s.workers[k], JoinProc(m), code)]
    ensures forall w, i :: CopiedOk(s', w, i) <==> CopiedOk(s, w, i)
    ensures forall d :: d != s.workers[k].joins[m].dst ==> (Joined(s', d) <==> Joined(s, d))
    ensures forall d :: d != s.workers[k].joins[m].dst ==> (JoinEnded(s', d) <==> JoinEnded(s, d))
    ensures JoinEnded(s', s.workers[k].joins[m].dst)
    ensures Joined(s', s.workers[k].joins[m].dst) <==> code == 0
  {
    var dst := s.workers[k].joins[m].dst;
    assert forall w, i, d :: IsJoin(s', w, i, d) <==> IsJoin(s, w, i, d);
    assert IsJoin(s', k, m, dst);
    forall d | d != dst ensures (Joined(s', d) <==> Joined(s, d)) && (JoinEnded(s', d) <==> JoinEnded(s, d)) {
      assert forall w, i :: IsJoin(s, w, i, d) ==> s'.workers[w].joins[i] == s.workers[w].joins[i];
      if JoinEnded(s, d) {
        var w, i :| IsJoin(s, w, i, d) && s.workers[w].joins[i].status.Exited?;
        assert IsJoin(s', w, i, d);
      }
      if Joined(s, d) {
        var w, i :| IsJoin(s, w, i, d) && s.workers[w].joins[i].status == Exited(0);
        assert IsJoin(s', w, i, d);
      }
    }
  }

  /** No join that has ended so far reached a name under the pattern of d. */
  lemma NotSwept(pieces: map<string, seq<Bytes>>, s: State, d: string, x: string)
    requires NotNested(pieces) && JoinsInv(s) && s.counts.Keys == pieces.Keys
    requires d in pieces && !JoinEnded(s, d) && GlobMatch(d, x)
    ensures !Swept(s, x)
  {
    if c :| JoinEnded(s, c) && GlobMatch(c, x) {
      var w, m :| IsJoin(s, w, m, c);
      PatternsNested(d, c, x);
    }
  }

  /** Before the join of d ends, the files under its pattern that are not its
      pieces are those that were there from the start. */
  lemma ForeignKept(
      cfg: Config, pieces: map<string, seq<Bytes>>, before: map<string, Bytes>, s: State, d: string, x: string)
    requires PlanOk(cfg, pieces) && NonItemsKept(cfg, before, s) && JoinsInv(s) && s.counts.Keys == pieces.Keys
    requires d in pieces && !JoinEnded(s, d) && GlobMatch(d, x) && !IsPieceOf(d, |pieces[d]|, x)
    ensures SameAt(before, s.remote, x)
  {
    if IsItemName(cfg, x) {
      ItemsUnderPattern(cfg, pieces, d, x);
    }
    NotSwept(pieces, s, d, x);
    assert OtherKept(before, s, x);
  }

  lemma ForeignEmptyKept(
      cfg: Config, pieces: map<string, seq<Bytes>>, before: map<string, Bytes>, s: State, d: string)
    requires PlanOk(cfg, pieces) && NonItemsKept(cfg, before, s) && JoinsInv(s) && s.counts.Keys == pieces.Keys
    requires d in pieces && !JoinEnded(s, d)
    ensures ForeignEmpty(before, d, |pieces[d]|) <==> ForeignEmpty(s.remote, d, |pieces[d]|)
  {
    forall x | GlobMatch(d, x) && !IsPieceOf(d, |pieces[d]|, x) ensures SameAt(before, s.remote, x) {
      ForeignKept(cfg, pieces, before, s, d, x);
    }
  }

  lemma JoinExitStored(
      cfg: Config, pieces: map<string, seq<Bytes>>, before: map<string, Bytes>, s: State, d: string, s': State)
    requires Inv(cfg, pieces, before, s) && s'.remote == JoinFiles(s.remote, d)
    requires d in s.counts && s.counts[d] == 0 && !JoinEnded(s, d) && d in pieces
    ensures JoinStored(s', pieces, before, d)
  {
    forall i | 0 <= i < |pieces[d]|
      ensures Holds(s.remote, PieceName(d, i, PadWidth(|pieces[d]|)), pieces[d][i])
    {
      PiecesInPlace(cfg, pieces, before, s, d, i);
    }
    JoinIntactIff(s.remote, d, pieces[d]);
    ForeignEmptyKept(cfg, pieces, before, s, d);
  }

  lemma JoinSparesNonItems(
      cfg: Config, pieces: map<string, seq<Bytes>>, before: map<string, Bytes>,
      s: State, d: string, code: int, s': State)
    requires PlanOk(cfg, pieces) && NonItemsKept(cfg, before, s) && d in pieces
    requires JoinExited(s, d, code, s') && !JoinEnded(s, d)
    ensures NonItemsKept(cfg, before, s')
  {
    JoinTouches(s.remote, d, code, s'.remote);
    DstIsItem(cfg, pieces, d);
    forall x | !IsItemName(cfg, x) ensures OtherKept(before, s', x) {
      assert OtherKept(before, s, x);
      SweptStays(s, s', x);
      assert GlobMatch(d, x) ==> Swept(s', x);
    }
  }

  lemma JoinSparesItems(
      cfg: Config, pieces: map<string, seq<Bytes>>,
      s: State, d: string, s': State, w: int, i: int)
    requires PlanOk(cfg, pieces) && d in pieces && !LooksLikePiece(d)
    requires IsSlot(cfg.files, w, i) && ItemStored(s, cfg.files[w][i])
    requires forall x :: x != d && !GlobMatch(d, x) ==> SameAt(s.remote, s'.remote, x)
    requires s'.counts == s.counts && JoinEnded(s', d)
    requires forall c :: c != d ==> (JoinEnded(s', c) <==> JoinEnded(s, c))
    ensures ItemStored(s', cfg.files[w][i])
  {
    if (w, i) !in PieceSet(cfg, d) {
      OutOfReach(cfg, pieces, d, w, i);
      assert SameAt(s.remote, s'.remote, cfg.files[w][i].name);
    }
  }

  lemma JoinSparesJoined(
      s: State, pieces: map<string, seq<Bytes>>, before: map<string, Bytes>, d: string, s': State, c: string)
    requires c in pieces && c != d && JoinStored(s, pieces, before, c) && !GlobMatch(d, c) && !GlobMatch(c, d)
    requires forall x :: x != d && !GlobMatch(d, x) ==> SameAt(s.remote, s'.remote, x)
    requires forall x :: x in s'.remote ==> x == d || x in s.remote
    ensures JoinStored(s', pieces, before, c)
  {
    assert SameAt(s.remote, s'.remote, c);
  }

  /** How a join's exit changes what the invariant speaks about. */
  ghost predicate JoinExited(s: State, d: string, code: int, s': State) {
    && s'.counts == s.counts
    && JoinEffect(s.remote, d, code, s'.remote)
    && (forall w, i :: CopiedOk(s', w, i) ==> CopiedOk(s, w, i))
    && (forall c :: c != d ==> (Joined(s', c) <==> Joined(s, c)))
    && (forall c :: c != d ==> (JoinEnded(s', c) <==> JoinEnded(s, c)))
    && JoinEnded(s', d) && (Joined(s', d) <==> code == 0)
  }

  lemma JoinExitedInv(
      cfg: Config, pieces: map<string, seq<Bytes>>, before: map<string, Bytes>,
      s: State, d: string, code: int, s': State)
    requires Inv(cfg, pieces, before, s) && JoinExited(s, d, code, s')
    requires d in s.counts && s.counts[d] == 0 && !JoinEnded(s, d)
    ensures RemoteInv(cfg, pieces, before, s')
  {
    AllPiecesDone(cfg, pieces, s, d);
    JoinSparesNonItems(cfg, pieces, before, s, d, code, s');
    JoinExitedItems(cfg, pieces, s, d, code, s');
    if code == 0 {
      JoinExitStored(cfg, pieces, before, s, d, s');
    }
    JoinExitedJoined(cfg, pieces, before, s, d, code, s');
  }

  lemma JoinExitedItems(
      cfg: Config, pieces: map<string, seq<Bytes>>,
      s: State, d: string, code: int, s': State)
    requires PlanOk(cfg, pieces) && ItemsStored(cfg, s) && JoinExited(s, d, code, s')
    requires d in pieces && !LooksLikePiece(d)
    ensures ItemsStored(cfg, s')
  {
    JoinTouches(s.remote, d, code, s'.remote);
    forall w, i | CopiedOk(s', w, i) && IsSlot(cfg.files, w, i) ensures ItemStored(s', cfg.files[w][i]) {
      JoinSparesItems(cfg, pieces, s, d, s', w, i);
    }
  }

  lemma JoinExitedJoined(
      cfg: Config, pieces: map<string, seq<Bytes>>, before: map<string, Bytes>,
      s: State, d: string, code: int, s': State)
    requires NotNested(pieces) && JoinsStored(pieces, before, s) && JoinExited(s, d, code, s') && d in pieces
    requires code == 0 ==> JoinStored(s', pieces, before, d)
    ensures JoinsStored(pieces, before, s')
  {
    JoinTouches(s.remote, d, code, s'.remote);
    forall c | c in pieces && Joined(s', c) ensures JoinStored(s', pieces, before, c) {
      if c != d {
        JoinSparesJoined(s, pieces, before, d, s', c);
      }
    }
  }

  /** After a join has exited. */
  lemma JoinExitStep(
      cfg: Config, pieces: map<string, seq<Bytes>>, before: map<string, Bytes>,
      s: State, k: nat, m: nat, code: int, s': State)
    requires Inv(cfg, pieces, before, s) && k < |s.workers|
    requires ExitStep(cfg, s, k, JoinProc(m), code, s')
    ensures RemoteInv(cfg, pieces, before, s')
  {
    var d := s.workers[k].joins[m].dst;
    assert IsJoin(s, k, m, d);
    JoinRunning(s, k, m);
    JoinExitJoins(s, k, m, code, s');
    JoinExitedInv(cfg, pieces, before, s, d, code, s');
  }

  lemma RemoteStep(
      cfg: Config, pieces: map<string, seq<Bytes>>, before: map<string, Bytes>, s: State, e: Event, s': State)
    requires Inv(cfg, pieces, before, s) && Step(cfg, s, e, s')
    ensures RemoteInv(cfg, pieces, before, s')
  {
    if e.Exit? {
      match e.h
      case Copy(j) => CopyExitStep(cfg, pieces, before, s, e.w, j, e.code, s');
      case JoinProc(m) => JoinExitStep(cfg, pieces, before, s, e.w, m, e.code, s');
    } else {
      StatusKept(cfg, s, e, s');
      QuietJoins(s, s');
      QuietStep(cfg, pieces, before, s, s');
    }
  }

  /** Every step keeps the invariant. */
  lemma InvStep(
      cfg: Config, pieces: map<string, seq<Bytes>>, before: map<string, Bytes>, s: State, e: Event, s': State)
    requires Inv(cfg, pieces, before, s) && Step(cfg, s, e, s')
    ensures Inv(cfg, pieces, before, s')
  {
    WorkersStep(cfg, s, e, s');
    CountsStep(cfg, s, e, s');
    JoinsStep(cfg, pieces, s, e, s');
    RemoteStep(cfg, pieces, before, s, e, s');
  }

  lemma CountsInit(cfg: Config, s: State)
    requires Init(cfg, s)
    ensures CountsInv(cfg, s)
  {
    var none: set<(int, int)> := {};
    assert Done(s) == none;
    forall d | d in s.counts ensures CountMatches(cfg, s.counts, none, d) {
      assert none * PieceSet(cfg, d) == none;
    }
  }

  lemma InvInit(cfg: Config, pieces: map<string, seq<Bytes>>, s: State)
    requires Init(cfg, s) && PlanOk(cfg, pieces)
    ensures Inv(cfg, pieces, s.remote, s)
  {
    CountsInit(cfg, s);
    assert forall w, m, d :: !IsJoin(s, w, m, d);
  }

  /** Every state of every run satisfies the invariant. */
  lemma {:induction false} InvAlongRun(
      cfg: Config, pieces: map<string, seq<Bytes>>, states: seq<State>, events: seq<Event>, t: nat)
    requires IsRun(cfg, states, events) && PlanOk(cfg, pieces) && t < |states|
    ensures Inv(cfg, pieces, states[0].remote, states[t])
  {
    if t == 0 {
      InvInit(cfg, pieces, states[0]);
    } else {
      InvAlongRun(cfg, pieces, states, events, t - 1);
      InvStep(cfg, pieces, states[0].remote, states[t - 1], events[t - 1], states[t]);
    }
  }
}
