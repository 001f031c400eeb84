/** Every step of the transfer system keeps its invariant. */
module TransferInvariant {
  import opened Common
  import opened SplitNames
  import opened Packing
  import opened Transfer

  // ---- one worker ------------------------------------------------------

  lemma RemoveDistinct<T>(s: seq<T>, n: nat)
    requires n < |s| && Distinct(s)
    ensures Distinct(Remove(s, n))
    ensures s[n] !in Remove(s, n)
    ensures forall x :: x in s && x != s[n] ==> x in Remove(s, n)
  {
    var r := Remove(s, n);
    forall x | x in s && x != s[n] ensures x in r {
      var k :| 0 <= k < |s| && s[k] == x;
      assert r[if k < n then k else k - 1] == x;
    }
  }

  lemma SpawnedHandles(mpt: nat, files: seq<Xfer>, w: Worker)
    requires WorkerInv(mpt, files, w) && CanSpawn(mpt, files, w)
    ensures var v := Spawned(files, w);
      && v.i <= |files| && |v.psdst| == |v.psprocs|
      && (forall k :: 0 <= k < |v.psprocs| ==> PieceHandleOk(files, v, k))
      && (forall k :: 0 <= k < |v.procs| ==> PlainHandleOk(files, v, k))
  {
    var v := Spawned(files, w);
    forall k | 0 <= k < |v.psprocs| ensures PieceHandleOk(files, v, k) {
      if k < |w.psprocs| {
        assert PieceHandleOk(files, w, k) && v.psprocs[k] == w.psprocs[k] && v.psdst[k] == w.psdst[k];
      }
    }
    forall k | 0 <= k < |v.procs| ensures PlainHandleOk(files, v, k) {
      if k < |w.procs| {
        assert PlainHandleOk(files, w, k) && v.procs[k] == w.procs[k];
      }
    }
  }

  /** The new handle is not in either list yet. */
  lemma SpawnedDistinct(mpt: nat, files: seq<Xfer>, w: Worker)
    requires WorkerInv(mpt, files, w) && CanSpawn(mpt, files, w)
    ensures Distinct(Spawned(files, w).psprocs) && Distinct(Spawned(files, w).procs)
  {
    assert forall k :: 0 <= k < |w.psprocs| ==> PieceHandleOk(files, w, k) && w.psprocs[k] != Copy(w.i);
    assert forall k :: 0 <= k < |w.procs| ==> PlainHandleOk(files, w, k) && w.procs[k] != Copy(w.i);
  }

  lemma SpawnedInv(mpt: nat, files: seq<Xfer>, w: Worker)
    requires WorkerInv(mpt, files, w) && CanSpawn(mpt, files, w)
    ensures WorkerInv(mpt, files, Spawned(files, w))
  {
    var v := Spawned(files, w);
    SpawnedHandles(mpt, files, w);
    SpawnedDistinct(mpt, files, w);
    assert w.psprocs <= v.psprocs && w.procs <= v.procs;
    forall j | 0 <= j < v.i ensures j in v.reaped || Copy(j) in v.psprocs || Copy(j) in v.procs {
      if j == w.i {
        var l := if IsPiece(files[j]) then v.psprocs else v.procs;
        assert l[|l| - 1] == Copy(j);
      }
    }
  }

  lemma WithExitInv(mpt: nat, files: seq<Xfer>, w: Worker, h: Handle, code: int)
    requires WorkerInv(mpt, files, w) && HasHandle(w, h) && StatusOf(w, h) == Running
    ensures WorkerInv(mpt, files, WithExit(w, h, code))
  {
    var v := WithExit(w, h, code);
    forall k | 0 <= k < |w.psprocs| ensures PieceHandleOk(files, v, k) {
      assert PieceHandleOk(files, w, k);
    }
    forall k | 0 <= k < |w.procs| ensures PlainHandleOk(files, v, k) {
      assert PlainHandleOk(files, w, k);
    }
  }

  lemma ReturnedInv(mpt: nat, files: seq<Xfer>, w: Worker, rc: int)
    requires WorkerInv(mpt, files, w) && w.outcome == Active && (rc == 0 ==> w.completed == |files|)
    ensures WorkerInv(mpt, files, w.(outcome := Returned(rc)))
  {
    var v := w.(outcome := Returned(rc));
    forall k | 0 <= k < |w.psprocs| ensures PieceHandleOk(files, v, k) {
      assert PieceHandleOk(files, w, k);
    }
    forall k | 0 <= k < |w.procs| ensures PlainHandleOk(files, v, k) {
      assert PlainHandleOk(files, w, k);
    }
  }

  lemma PieceReapedInv(mpt: nat, files: seq<Xfer>, w: Worker, n: nat, d: Decrement)
    requires WorkerInv(mpt, files, w) && w.outcome == Active
    requires n < |w.psprocs| == |w.psdst| && w.psprocs[n].Copy?
    requires HasHandle(w, w.psprocs[n]) && StatusOf(w, w.psprocs[n]) == Exited(0)
    ensures WorkerInv(mpt, files, PieceReaped(w, n, d))
  {
    var v := PieceReaped(w, n, d);
    assert PieceHandleOk(files, w, n);
    RemoveDistinct(w.psprocs, n);
    forall k | 0 <= k < |v.psprocs| ensures PieceHandleOk(files, v, k) {
      var k' := if k < n then k else k + 1;
      assert PieceHandleOk(files, w, k') && v.psprocs[k] == w.psprocs[k'] && v.psdst[k] == w.psdst[k'];
    }
    forall k | 0 <= k < |v.procs| ensures PlainHandleOk(files, v, k) {
      if k < |w.procs| {
        assert PlainHandleOk(files, w, k) && v.procs[k] == w.procs[k];
      }
    }
    assert w.procs <= v.procs;
    if d == Last {
      forall k | 0 <= k < |w.procs| ensures w.procs[k] != JoinProc(|w.joins|) {
        assert PlainHandleOk(files, w, k);
      }
      assert v.procs[|w.procs|] == JoinProc(|w.joins|);
    }
  }

  lemma PlainReapedInv(mpt: nat, files: seq<Xfer>, w: Worker, n: nat)
    requires WorkerInv(mpt, files, w) && w.outcome == Active
    requires n < |w.procs| && HasHandle(w, w.procs[n]) && StatusOf(w, w.procs[n]) == Exited(0)
    ensures WorkerInv(mpt, files, PlainReaped(w, n))
  {
    var v := PlainReaped(w, n);
    assert PlainHandleOk(files, w, n);
    RemoveDistinct(w.procs, n);
    forall k | 0 <= k < |v.procs| ensures PlainHandleOk(files, v, k) {
      var k' := if k < n then k else k + 1;
      assert PlainHandleOk(files, w, k') && v.procs[k] == w.procs[k'];
    }
    forall k | 0 <= k < |v.psprocs| ensures PieceHandleOk(files, v, k) {
      assert PieceHandleOk(files, w, k);
    }
  }

  lemma ReapPieceKeepsInv(cfg: Config, s: State, j: nat, n: nat, s': State)
    requires Step(cfg, s, ReapPiece(j, n), s') && WorkerInv(cfg.mpt, cfg.files[j], s.workers[j])
    ensures |s'.workers| == |s.workers| && WorkerInv(cfg.mpt, cfg.files[j], s'.workers[j])
  {
    var files, w, v := cfg.files[j], s.workers[j], s'.workers[j];
    var st := StatusOf(w, w.psprocs[n]);
    if st.code != 0 {
      ReturnedInv(cfg.mpt, files, w, st.code);
    } else {
      var d := if v.outcome == Crashed then NoKey else if |v.joins| > |w.joins| then Last else Remaining;
      PieceReapedInv(cfg.mpt, files, w, n, d);
      assert v == PieceReaped(w, n, d);
    }
  }

  lemma OneWorkerStep(cfg: Config, s: State, e: Event, s': State)
    requires Step(cfg, s, e, s') && WorkerInv(cfg.mpt, cfg.files[e.w], s.workers[e.w])
    ensures |s'.workers| == |s.workers| && WorkerInv(cfg.mpt, cfg.files[e.w], s'.workers[e.w])
  {
    var files, w := cfg.files[e.w], s.workers[e.w];
    var v := s'.workers[e.w];
    match e
    case Spawn(k) => SpawnedInv(cfg.mpt, files, w);
    case Exit(k, h, code) =>
      WithExitInv(cfg.mpt, files, w, h, code);
      assert v == WithExit(w, h, code);
    case ReapPiece(k, n) =>
      ReapPieceKeepsInv(cfg, s, k, n, s');
    case ReapPlain(k, n) =>
      var st := StatusOf(w, w.procs[n]);
      if st.code != 0 {
        ReturnedInv(cfg.mpt, files, w, st.code);
      } else {
        PlainReapedInv(cfg.mpt, files, w, n);
      }
    case Finish(k) => ReturnedInv(cfg.mpt, files, w, 0);
  }

  lemma OthersKept(cfg: Config, s: State, e: Event, s': State)
    requires Step(cfg, s, e, s')
    ensures |s'.workers| == |s.workers|
    ensures forall k :: 0 <= k < |s.workers| && k != e.w ==> s'.workers[k] == s.workers[k]
  {
  }

  lemma WorkersStep(cfg: Config, s: State, e: Event, s': State)
    requires WorkersInv(cfg, s) && Step(cfg, s, e, s')
    ensures WorkersInv(cfg, s')
    ensures forall k :: 0 <= k < |s.workers| && k != e.w ==> s'.workers[k] == s.workers[k]
  {
    OthersKept(cfg, s, e, s');
    OneWorkerStep(cfg, s, e, s');
  }

  // ---- the countdown ---------------------------------------------------

  /** The item that a step reaps with code 0, if it reaps one. */
  lemma DoneGrows(s: State, s': State, k: nat, j: nat)
    requires k < |s.workers| == |s'.workers|
    requires forall i :: 0 <= i < |s.workers| && i != k ==> s'.workers[i] == s.workers[i]
    requires s'.workers[k].reaped == s.workers[k].reaped + {j}
    ensures Done(s') == Done(s) + {(k, j)}
  {
  }

  lemma DoneSame(s: State, s': State, k: nat)
    requires k < |s.workers| == |s'.workers|
    requires forall i :: 0 <= i < |s.workers| && i != k ==> s'.workers[i] == s.workers[i]
    requires s'.workers[k].reaped == s.workers[k].reaped
    ensures Done(s') == Done(s)
  {
  }

  lemma ReapOneOf(done: set<(int, int)>, ps: set<(int, int)>, x: (int, int))
    requires x !in done
    ensures |(done + {x}) * ps| == |done * ps| + (if x in ps then 1 else 0)
  {
    if x in ps {
      assert (done + {x}) * ps == done * ps + {x};
    } else {
      assert (done + {x}) * ps == done * ps;
    }
  }

  lemma InPieceSet(cfg: Config, d: string, k: nat, j: nat)
    requires IsSlot(cfg.files, k, j) && IsPiece(cfg.files[k][j])
    ensures (k, j) in PieceSet(cfg, d) <==> d == TargetOf(cfg.files[k][j].name)
  {
  }

  lemma DoneInPieceSet(cfg: Config, done: set<(int, int)>, k: nat, j: nat, d: string)
    requires IsSlot(cfg.files, k, j) && (k, j) !in done && IsPiece(cfg.files[k][j])
    ensures |(done + {(k, j)}) * PieceSet(cfg, d)| ==
      |done * PieceSet(cfg, d)| + (if d == TargetOf(cfg.files[k][j].name) then 1 else 0)
  {
    InPieceSet(cfg, d, k, j);
    ReapOneOf(done, PieceSet(cfg, d), (k, j));
  }

  lemma DoneKnownAfter(cfg: Config, done: set<(int, int)>, k: nat, j: nat)
    requires DoneKnown(cfg, done)
    requires IsSlot(cfg.files, k, j) && (IsPiece(cfg.files[k][j]) ==> TargetOf(cfg.files[k][j].name) in cfg.counts)
    ensures DoneKnown(cfg, done + {(k, j)})
  {
  }

  /** Reaping one piece with code 0 moves exactly one countdown by one. */
  lemma CountdownMoves(cfg: Config, counts: map<string, int>, done: set<(int, int)>, k: nat, j: nat)
    requires CountsMatch(cfg, counts, done)
    requires IsSlot(cfg.files, k, j) && (k, j) !in done && IsPiece(cfg.files[k][j])
    requires TargetOf(cfg.files[k][j].name) in counts
    ensures var dst := TargetOf(cfg.files[k][j].name);
      CountsMatch(cfg, counts[dst := counts[dst] - 1], done + {(k, j)})
  {
    var dst := TargetOf(cfg.files[k][j].name);
    forall d
      ensures PiecesDoneOf(cfg, done + {(k as int, j as int)}, d) == PiecesDoneOf(cfg, done, d) + (if d == dst then 1 else 0)
    {
      DoneInPieceSet(cfg, done, k, j, d);
    }
    OneCountdownMoves(cfg, counts, done, (k, j), dst);
  }

  /** The pieces of d among done. */
  ghost function PiecesDoneOf(cfg: Config, done: set<(int, int)>, d: string): nat {
    |done * PieceSet(cfg, d)|
  }

  lemma OneCountdownMoves(cfg: Config, counts: map<string, int>, done: set<(int, int)>, x: (int, int), dst: string)
    requires CountsMatch(cfg, counts, done) && dst in counts
    requires forall d :: PiecesDoneOf(cfg, done + {x}, d) == PiecesDoneOf(cfg, done, d) + (if d == dst then 1 else 0)
    ensures CountsMatch(cfg, counts[dst := counts[dst] - 1], done + {x})
  {
    var after := counts[dst := counts[dst] - 1];
    assert after.Keys == counts.Keys;
    forall d | d in after ensures CountMatches(cfg, after, done + {x}, d) {
      assert CountMatches(cfg, counts, done, d);
      assert PiecesDoneOf(cfg, done + {x}, d) == PiecesDoneOf(cfg, done, d) + (if d == dst then 1 else 0);
    }
  }

  lemma CountdownStays(cfg: Config, counts: map<string, int>, done: set<(int, int)>, k: nat, j: nat)
    requires CountsMatch(cfg, counts, done)
    requires IsSlot(cfg.files, k, j) && !IsPiece(cfg.files[k][j])
    ensures CountsMatch(cfg, counts, done + {(k, j)})
  {
    forall d | d in counts ensures CountMatches(cfg, counts, done + {(k, j)}, d) {
      assert CountMatches(cfg, counts, done, d);
      assert (done + {(k, j)}) * PieceSet(cfg, d) == done * PieceSet(cfg, d);
    }
  }

  lemma OutstandingPiece(cfg: Config, s: State, k: nat, n: nat)
    requires WorkersInv(cfg, s) && k < |s.workers| && n < |s.workers[k].psprocs|
    ensures var w := s.workers[k];
      |w.psdst| == |w.psprocs| && w.psprocs[n].Copy? &&
      var j := w.psprocs[n].j;
      IsSlot(cfg.files, k, j) && (k, j) !in Done(s) && IsPiece(cfg.files[k][j]) &&
      w.psdst[n] == TargetOf(cfg.files[k][j].name)
  {
    assert WorkerInv(cfg.mpt, cfg.files[k], s.workers[k]) && PieceHandleOk(cfg.files[k], s.workers[k], n);
  }

  lemma OutstandingPlain(cfg: Config, s: State, k: nat, n: nat)
    requires WorkersInv(cfg, s) && k < |s.workers| && n < |s.workers[k].procs| && s.workers[k].procs[n].Copy?
    ensures var j := s.workers[k].procs[n].j;
      IsSlot(cfg.files, k, j) && (k, j) !in Done(s) && !IsPiece(cfg.files[k][j])
  {
    assert WorkerInv(cfg.mpt, cfg.files[k], s.workers[k]) && PlainHandleOk(cfg.files[k], s.workers[k], n);
  }

  /** The two outcomes of reaping from `psprocs`, as far as the countdown and
      the reaped items are concerned. */
  lemma ReapPieceCases(cfg: Config, s: State, k: nat, n: nat, s': State)
    requires k < |s.workers| == |cfg.files| && ReapPieceStep(cfg, s, k, n, s')
    ensures |s'.workers| == |s.workers|
    ensures forall i :: 0 <= i < |s.workers| && i != k ==> s'.workers[i] == s.workers[i]
    ensures var w, v := s.workers[k], s'.workers[k];
      var dst := w.psdst[n];
      if StatusOf(w, w.psprocs[n]) == Exited(0) && dst in s.counts
      then s'.counts == s.counts[dst := s.counts[dst] - 1] && v.reaped == w.reaped + {w.psprocs[n].j}
      else s'.counts == s.counts && v.reaped == w.reaped
  {
  }

  lemma ReapPieceDone(cfg: Config, s: State, k: nat, n: nat, s': State)
    requires WorkersInv(cfg, s) && CountsInv(cfg, s)
    requires k < |s.workers| && ReapPieceStep(cfg, s, k, n, s')
    ensures CountsInv(cfg, s')
  {
    OutstandingPiece(cfg, s, k, n);
    ReapPieceCases(cfg, s, k, n, s');
    PieceCounted(cfg, s, k, n, s');
  }

  lemma PieceCounted(cfg: Config, s: State, k: nat, n: nat, s': State)
    requires CountsInv(cfg, s) && k < |s.workers| == |s'.workers|
    requires forall i :: 0 <= i < |s.workers| && i != k ==> s'.workers[i] == s.workers[i]
    requires n < |s.workers[k].psprocs| == |s.workers[k].psdst| && s.workers[k].psprocs[n].Copy?
    requires var j := s.workers[k].psprocs[n].j;
      IsSlot(cfg.files, k, j) && (k, j) !in Done(s) && IsPiece(cfg.files[k][j]) &&
      s.workers[k].psdst[n] == TargetOf(cfg.files[k][j].name)
    requires var w, v := s.workers[k], s'.workers[k];
      var dst := w.psdst[n];
      (s'.counts == s.counts && v.reaped == w.reaped) ||
      (dst in s.counts && s'.counts == s.counts[dst := s.counts[dst] - 1] && v.reaped == w.reaped + {w.psprocs[n].j})
    ensures CountsInv(cfg, s')
  {
    var w, v := s.workers[k], s'.workers[k];
    var j := w.psprocs[n].j;
    if s'.counts == s.counts && v.reaped == w.reaped {
      DoneSame(s, s', k);
    } else {
      DoneGrows(s, s', k, j);
      CountdownMoves(cfg, s.counts, Done(s), k, j);
      DoneKnownAfter(cfg, Done(s), k, j);
    }
  }

  lemma ReapPlainDone(cfg: Config, s: State, k: nat, n: nat, s': State)
    requires WorkersInv(cfg, s) && CountsInv(cfg, s)
    requires k < |s.workers| && ReapPlainStep(cfg, s, k, n, s')
    ensures CountsInv(cfg, s')
  {
    var w, v := s.workers[k], s'.workers[k];
    if w.procs[n].Copy? && v.reaped == w.reaped + {w.procs[n].j} {
      var j := w.procs[n].j;
      OutstandingPlain(cfg, s, k, n);
      DoneGrows(s, s', k, j);
      CountdownStays(cfg, s.counts, Done(s), k, j);
      DoneKnownAfter(cfg, Done(s), k, j);
    } else {
      DoneSame(s, s', k);
    }
  }

  lemma CountsStep(cfg: Config, s: State, e: Event, s': State)
    requires WorkersInv(cfg, s) && CountsInv(cfg, s) && Step(cfg, s, e, s')
    ensures CountsInv(cfg, s')
  {
    match e
    case ReapPiece(k, n) => ReapPieceDone(cfg, s, k, n, s');
    case ReapPlain(k, n) => ReapPlainDone(cfg, s, k, n, s');
    case Spawn(k) => DoneSame(s, s', k);
    case Exit(k, h, code) => DoneSame(s, s', k);
    case Finish(k) => DoneSame(s, s', k);
  }

  // ---- joins -----------------------------------------------------------

  predicate StartsJoin(s: State, e: Event, s': State)
    requires e.w < |s.workers| == |s'.workers|
  {
    |s'.workers[e.w].joins| > |s.workers[e.w].joins|
  }

  lemma PlanSizes(cfg: Config, pieces: map<string, seq<Bytes>>, d: string)
    requires PlanOk(cfg, pieces) && d in cfg.counts
    ensures d in pieces && cfg.counts[d] == |pieces[d]|
    ensures |PieceSet(cfg, d)| == |pieces[d]| - (if LooksLikePiece(d) then 1 else 0)
  {
  }

  lemma OneLeft(done: set<(int, int)>, ps: set<(int, int)>, x: (int, int), total: int)
    requires x in ps && x !in done && |ps| <= total
    ensures total - |done * ps| >= 1
  {
    SubsetSize(done * ps, ps - {x});
  }

  /** A piece that is still outstanding keeps its countdown above zero. */
  lemma CountPositive(cfg: Config, pieces: map<string, seq<Bytes>>, s: State, k: nat, n: nat)
    requires PlanOk(cfg, pieces) && WorkersInv(cfg, s) && CountsInv(cfg, s)
    requires k < |s.workers| && n < |s.workers[k].psprocs| && s.workers[k].psdst[n] in s.counts
    ensures s.counts[s.workers[k].psdst[n]] >= 1
  {
    var w := s.workers[k];
    OutstandingPiece(cfg, s, k, n);
    var j, d := w.psprocs[n].j, w.psdst[n];
    assert CountMatches(cfg, s.counts, Done(s), d);
    PlanSizes(cfg, pieces, d);
    InPieceSet(cfg, d, k, j);
    OneLeft(Done(s), PieceSet(cfg, d), (k, j), cfg.counts[d]);
  }

  lemma NoJoinStarted(cfg: Config, s: State, e: Event, s': State)
    requires Step(cfg, s, e, s') && !StartsJoin(s, e, s')
    requires e.ReapPiece? && s.workers[e.w].psdst[e.n] in s.counts ==> s.counts[s.workers[e.w].psdst[e.n]] >= 1
    ensures forall w, m, d :: IsJoin(s', w, m, d) <==> IsJoin(s, w, m, d)
    ensures s'.counts.Keys == s.counts.Keys
    ensures forall d :: d in s.counts ==> (s'.counts[d] == 0 <==> s.counts[d] == 0)
  {
  }

  /** A join is started only by the step that takes a countdown from 1 to 0. */
  lemma JoinStarted(cfg: Config, s: State, e: Event, s': State)
    requires Step(cfg, s, e, s') && StartsJoin(s, e, s')
    ensures e.ReapPiece? && e.n < |s.workers[e.w].psdst|
    ensures var w := s.workers[e.w];
      var dst := w.psdst[e.n];
      dst in s.counts && s.counts[dst] == 1 && s'.counts == s.counts[dst := 0] &&
      forall k, m, d ::
        IsJoin(s', k, m, d) <==> (IsJoin(s, k, m, d) || (k == e.w && m == |w.joins| && d == dst))
  {
    var w, v := s.workers[e.w], s'.workers[e.w];
    if e.ReapPiece? && StatusOf(w, w.psprocs[e.n]) == Exited(0) && w.psdst[e.n] in s.counts {
      assert v.joins == w.joins || v.joins == w.joins + [Joining(w.psdst[e.n], Running)];
    }
  }

  lemma JoinsInvSame(s: State, s': State)
    requires JoinsInv(s)
    requires forall w, m, d :: IsJoin(s', w, m, d) <==> IsJoin(s, w, m, d)
    requires s'.counts.Keys == s.counts.Keys
    requires forall d :: d in s.counts ==> (s'.counts[d] == 0 <==> s.counts[d] == 0)
    ensures JoinsInv(s')
  {
    forall d | d in s'.counts && s'.counts[d] == 0 ensures exists k, m :: IsJoin(s', k, m, d) {
      var k, m :| IsJoin(s, k, m, d);
      assert IsJoin(s', k, m, d);
    }
  }

  lemma JoinsInvStarted(s: State, s': State, k0: nat, m0: nat, dst: string)
    requires JoinsInv(s)
    requires forall k, m, d :: IsJoin(s', k, m, d) <==> (IsJoin(s, k, m, d) || (k == k0 && m == m0 && d == dst))
    requires dst in s.counts && s.counts[dst] == 1 && s'.counts == s.counts[dst := 0]
    ensures JoinsInv(s')
  {
    assert IsJoin(s', k0, m0, dst);
    assert forall k, m :: !IsJoin(s, k, m, dst);
    forall d | d in s'.counts && s'.counts[d] == 0 ensures exists k, m :: IsJoin(s', k, m, d) {
      if d != dst {
        var k, m :| IsJoin(s, k, m, d);
        assert IsJoin(s', k, m, d);
      }
    }
  }

  lemma JoinsStep(cfg: Config, pieces: map<string, seq<Bytes>>, s: State, e: Event, s': State)
    requires PlanOk(cfg, pieces) && WorkersInv(cfg, s) && CountsInv(cfg, s)
    requires JoinsInv(s) && Step(cfg, s, e, s')
    ensures JoinsInv(s')
  {
    if StartsJoin(s, e, s') {
      JoinStarted(cfg, s, e, s');
      JoinsInvStarted(s, s', e.w, |s.workers[e.w].joins|, s.workers[e.w].psdst[e.n]);
    } else {
      if e.ReapPiece? && s.workers[e.w].psdst[e.n] in s.counts {
        CountPositive(cfg, pieces, s, e.w, e.n);
      }
      NoJoinStarted(cfg, s, e, s');
      JoinsInvSame(s, s');
    }
  }
}
