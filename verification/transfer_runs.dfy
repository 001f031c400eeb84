/** Whole runs of the transfer system: joins, progress and termination. */
module TransferRuns {
  import opened Common
  import opened SplitNames
  import opened Packing
  import opened Transfer
  import opened TransferInvariant
  import opened TransferRemote

  // ---- joins over a run ------------------------------------------------

  lemma JoinedPieces(cfg: Config, s: State, d: string)
    requires WorkersInv(cfg, s) && PieceSet(cfg, d) <= Done(s)
    ensures forall x :: x in PieceSet(cfg, d) ==>
      0 <= x.0 < |s.workers| && x.1 in s.workers[x.0].reaped && CopiedOk(s, x.0, x.1)
  {
    forall x | x in PieceSet(cfg, d)
      ensures 0 <= x.0 < |s.workers| && x.1 in s.workers[x.0].reaped && CopiedOk(s, x.0, x.1)
    {
      assert x in Done(s) && x == (x.0, x.1);
      DoneIsCopied(cfg, s, x.0, x.1);
    }
  }

  /** In every reachable state, a destination that has a join has only one,
      and all of its pieces have been reaped with code 0. */
  lemma JoinOnceAfterAllPieces(
      cfg: Config, pieces: map<string, seq<Bytes>>, states: seq<State>, events: seq<Event>, t: nat,
      w: int, m: int, d: string)
    requires IsRun(cfg, states, events) && PlanOk(cfg, pieces) && t < |states|
    requires IsJoin(states[t], w, m, d)
    ensures forall w', m' :: IsJoin(states[t], w', m', d) ==> w' == w && m' == m
    ensures d in pieces && |PieceSet(cfg, d)| == |pieces[d]|
    ensures forall x :: x in PieceSet(cfg, d) ==>
      0 <= x.0 < |states[t].workers| && x.1 in states[t].workers[x.0].reaped && CopiedOk(states[t], x.0, x.1)
  {
    InvAlongRun(cfg, pieces, states, events, t);
    AllPiecesDone(cfg, pieces, states[t], d);
    PlanSizes(cfg, pieces, d);
    JoinedPieces(cfg, states[t], d);
  }

  /** Joins and exit codes are never taken back. */
  lemma StepKeepsHistory(cfg: Config, s: State, e: Event, s': State)
    requires Step(cfg, s, e, s')
    ensures |s'.workers| == |s.workers|
    ensures forall w, m, d :: IsJoin(s, w, m, d) ==> IsJoin(s', w, m, d)
    ensures forall w, j :: 0 <= w < |s.workers| && 0 <= j < |s.workers[w].xfers| && s.workers[w].xfers[j].Exited? ==>
      j < |s'.workers[w].xfers| && s'.workers[w].xfers[j] == s.workers[w].xfers[j]
  {
  }

  lemma {:induction false} RunKeepsHistory(cfg: Config, states: seq<State>, events: seq<Event>, t: nat, u: nat)
    requires IsRun(cfg, states, events) && t <= u < |states|
    ensures |states[u].workers| == |states[t].workers|
    ensures forall w, m, d :: IsJoin(states[t], w, m, d) ==> IsJoin(states[u], w, m, d)
    ensures forall w, j ::
      0 <= w < |states[t].workers| && 0 <= j < |states[t].workers[w].xfers| && states[t].workers[w].xfers[j].Exited? ==>
      j < |states[u].workers[w].xfers| && states[u].workers[w].xfers[j] == states[t].workers[w].xfers[j]
    decreases u - t
  {
    if t < u {
      RunKeepsHistory(cfg, states, events, t, u - 1);
      StepKeepsHistory(cfg, states[u - 1], events[u - 1], states[u]);
    }
  }

  /** A split file one of whose pieces fails is never joined, at any time. */
  lemma FailedPieceNeverJoined(
      cfg: Config, pieces: map<string, seq<Bytes>>, states: seq<State>, events: seq<Event>,
      t: nat, w: int, j: int, code: int, u: nat, d: string)
    requires IsRun(cfg, states, events) && PlanOk(cfg, pieces)
    requires t < |states| && u < |states|
    requires (w, j) in PieceSet(cfg, d)
    requires 0 <= w < |states[t].workers| && 0 <= j < |states[t].workers[w].xfers|
    requires states[t].workers[w].xfers[j] == Exited(code) && code != 0
    ensures forall k, m :: !IsJoin(states[u], k, m, d)
  {
    var last := if t <= u then u else t;
    RunKeepsHistory(cfg, states, events, t, last);
    RunKeepsHistory(cfg, states, events, u, last);
    forall k, m ensures !IsJoin(states[u], k, m, d) {
      if IsJoin(states[u], k, m, d) {
        JoinOnceAfterAllPieces(cfg, pieces, states, events, last, k, m, d);
      }
    }
  }

  // ---- what holds for every plan ---------------------------------------

  lemma CoreInit(cfg: Config, s: State)
    requires Init(cfg, s)
    ensures WorkersInv(cfg, s) && CountsInv(cfg, s)
  {
    CountsInit(cfg, s);
  }

  /** The loop invariants of the workers and the meaning of the countdowns do not
      depend on how the names of the items relate. */
  lemma {:induction false} CoreAlongRun(cfg: Config, states: seq<State>, events: seq<Event>, t: nat)
    requires IsRun(cfg, states, events) && t < |states|
    ensures WorkersInv(cfg, states[t]) && CountsInv(cfg, states[t])
  {
    if t == 0 {
      CoreInit(cfg, states[0]);
    } else {
      CoreAlongRun(cfg, states, events, t - 1);
      assert Step(cfg, states[t - 1], events[t - 1], states[t]);
      WorkersStep(cfg, states[t - 1], events[t - 1], states[t]);
      CountsStep(cfg, states[t - 1], events[t - 1], states[t]);
    }
  }

  // ---- progress --------------------------------------------------------

  /** The wait is never entered with nothing outstanding, and no more than
      `mpt` processes are outstanding, joins included. */
  lemma WaitHasProcess(mpt: nat, files: seq<Xfer>, w: Worker)
    requires WorkerInv(mpt, files, w) && mpt > 0 && AtWait(mpt, files, w)
    ensures 0 < Outstanding(w) <= mpt
  {
  }

  lemma HandlesExist(mpt: nat, files: seq<Xfer>, w: Worker)
    requires WorkerInv(mpt, files, w)
    ensures forall n :: 0 <= n < |w.psprocs| ==> w.psprocs[n].Copy? && HasHandle(w, w.psprocs[n])
    ensures forall n :: 0 <= n < |w.procs| ==> HasHandle(w, w.procs[n])
  {
    forall n | 0 <= n < |w.psprocs| ensures w.psprocs[n].Copy? && HasHandle(w, w.psprocs[n]) {
      assert PieceHandleOk(files, w, n);
    }
    forall n | 0 <= n < |w.procs| ensures HasHandle(w, w.procs[n]) {
      assert PlainHandleOk(files, w, n);
    }
  }

  ghost predicate Enabled(cfg: Config, s: State) {
    exists e, s' :: Step(cfg, s, e, s')
  }

  lemma ExitEnabled(cfg: Config, s: State, k: nat, h: Handle)
    requires WorkersInv(cfg, s) && k < |s.workers|
    requires HasHandle(s.workers[k], h) && StatusOf(s.workers[k], h) == Running
    ensures Enabled(cfg, s)
  {
    assert WorkerInv(cfg.mpt, cfg.files[k], s.workers[k]);
    var s' := WithWorker(s, k, WithExit(s.workers[k], h, 1));
    assert s' == s'.(remote := s.remote);
    assert ExitStep(cfg, s, k, h, 1, s');
    assert Step(cfg, s, Exit(k, h, 1), s');
  }

  lemma ReapPieceEnabled(cfg: Config, s: State, k: nat)
    requires WorkersInv(cfg, s) && k < |s.workers| && AtWait(cfg.mpt, cfg.files[k], s.workers[k])
    requires |s.workers[k].psprocs| > 0
    ensures Enabled(cfg, s)
  {
    var w := s.workers[k];
    HandlesExist(cfg.mpt, cfg.files[k], w);
    if StatusOf(w, w.psprocs[0]) == Running {
      ExitEnabled(cfg, s, k, w.psprocs[0]);
    } else {
      var code, dst := StatusOf(w, w.psprocs[0]).code, w.psdst[0];
      var left := if dst in s.counts then s.counts[dst] - 1 else 0;
      var s' := if code != 0 then WithWorker(s, k, w.(outcome := Returned(code)))
        else if dst !in s.counts then WithWorker(s, k, PieceReaped(w, 0, NoKey))
        else WithWorker(s, k, PieceReaped(w, 0, if left == 0 then Last else Remaining)).(counts := s.counts[dst := left]);
      assert Step(cfg, s, ReapPiece(k, 0), s');
    }
  }

  lemma ReapPlainEnabled(cfg: Config, s: State, k: nat)
    requires WorkersInv(cfg, s) && k < |s.workers| && AtWait(cfg.mpt, cfg.files[k], s.workers[k])
    requires |s.workers[k].procs| > 0
    ensures Enabled(cfg, s)
  {
    var w := s.workers[k];
    HandlesExist(cfg.mpt, cfg.files[k], w);
    if StatusOf(w, w.procs[0]) == Running {
      ExitEnabled(cfg, s, k, w.procs[0]);
    } else {
      var code := StatusOf(w, w.procs[0]).code;
      var s' := WithWorker(s, k, if code != 0 then w.(outcome := Returned(code)) else PlainReaped(w, 0));
      assert Step(cfg, s, ReapPlain(k, 0), s');
    }
  }

  /** As long as a worker has not returned, some step is possible: no worker
      ever waits for ever. */
  lemma ActiveMeansEnabled(cfg: Config, states: seq<State>, events: seq<Event>, t: nat, k: nat)
    requires IsRun(cfg, states, events) && cfg.mpt > 0 && t < |states|
    requires k < |states[t].workers| && states[t].workers[k].outcome == Active
    ensures Enabled(cfg, states[t])
  {
    CoreAlongRun(cfg, states, events, t);
    var s := states[t];
    var w := s.workers[k];
    assert WorkerInv(cfg.mpt, cfg.files[k], w);
    if w.completed == |cfg.files[k]| {
      assert Step(cfg, s, Finish(k), WithWorker(s, k, w.(outcome := Returned(0))));
    } else if CanSpawn(cfg.mpt, cfg.files[k], w) {
      assert Step(cfg, s, Spawn(k), WithWorker(s, k, Spawned(cfg.files[k], w)));
    } else {
      WaitHasProcess(cfg.mpt, cfg.files[k], w);
      if |w.psprocs| > 0 {
        ReapPieceEnabled(cfg, s, k);
      } else {
        ReapPlainEnabled(cfg, s, k);
      }
    }
  }

  // ---- termination -----------------------------------------------------

  function RunningCopies(xs: seq<Status>): nat {
    if xs == [] then 0 else RunningCopies(xs[..|xs| - 1]) + (if xs[|xs| - 1] == Running then 1 else 0)
  }

  function RunningJoins(js: seq<Joining>): nat {
    if js == [] then 0 else RunningJoins(js[..|js| - 1]) + (if js[|js| - 1].status == Running then 1 else 0)
  }

  lemma {:induction false} CopyStops(xs: seq<Status>, j: nat, code: int)
    requires j < |xs| && xs[j] == Running
    ensures RunningCopies(xs) == RunningCopies(xs[j := Exited(code)]) + 1
  {
    var n := |xs| - 1;
    if j < n {
      assert xs[j := Exited(code)][..n] == xs[..n][j := Exited(code)];
      CopyStops(xs[..n], j, code);
    } else {
      assert xs[j := Exited(code)][..n] == xs[..n];
    }
  }

  lemma {:induction false} JoinStops(js: seq<Joining>, m: nat, code: int)
    requires m < |js| && js[m].status == Running
    ensures RunningJoins(js) == RunningJoins(js[m := js[m].(status := Exited(code))]) + 1
  {
    var n := |js| - 1;
    var after := js[m := js[m].(status := Exited(code))];
    if m < n {
      assert after[..n] == js[..n][m := js[m].(status := Exited(code))];
      JoinStops(js[..n], m, code);
    } else {
      assert after[..n] == js[..n];
    }
  }

  /** Six for an item not yet spawned, four more for a split piece than for a
      plain process waiting to be reaped, one for a process that runs. */
  function Work(files: seq<Xfer>, w: Worker): int {
    6 * (|files| - w.i) + 4 * |w.psprocs| + |w.procs| + RunningCopies(w.xfers) + RunningJoins(w.joins) +
    if w.outcome == Active then 1 else 0
  }

  lemma SnocCounts(xs: seq<Status>, js: seq<Joining>, d: string)
    ensures RunningCopies(xs + [Running]) == RunningCopies(xs) + 1
    ensures RunningJoins(js + [Joining(d, Running)]) == RunningJoins(js) + 1
  {
    assert (xs + [Running])[..|xs|] == xs;
    assert (js + [Joining(d, Running)])[..|js|] == js;
  }

  lemma ReapWork(files: seq<Xfer>, w: Worker, n: nat)
    requires n < |w.psprocs| == |w.psdst| && w.psprocs[n].Copy? && w.outcome == Active
    ensures forall d :: Work(files, PieceReaped(w, n, d)) < Work(files, w)
  {
    SnocCounts(w.xfers, w.joins, w.psdst[n]);
  }

  lemma WorkDecreases(cfg: Config, s: State, e: Event, s': State)
    requires Step(cfg, s, e, s')
    ensures |s'.workers| == |s.workers|
    ensures Work(cfg.files[e.w], s'.workers[e.w]) < Work(cfg.files[e.w], s.workers[e.w])
  {
    var w := s.workers[e.w];
    match e
    case Spawn(k) => SnocCounts(w.xfers, w.joins, "");
    case Exit(k, h, code) => {
      match h
      case Copy(j) => CopyStops(w.xfers, j, code);
      case JoinProc(m) => JoinStops(w.joins, m, code);
    }
    case ReapPiece(k, n) => ReapWork(cfg.files[k], w, n);
    case ReapPlain(k, n) =>
    case Finish(k) =>
  }

  function TotalWork(files: seq<seq<Xfer>>, ws: seq<Worker>): int
    requires |files| == |ws|
  {
    if ws == [] then 0
    else TotalWork(files[..|ws| - 1], ws[..|ws| - 1]) + Work(files[|ws| - 1], ws[|ws| - 1])
  }

  lemma {:induction false} TotalWorkUpdate(files: seq<seq<Xfer>>, ws: seq<Worker>, k: nat, v: Worker)
    requires |files| == |ws| && k < |ws|
    ensures TotalWork(files, ws[k := v]) == TotalWork(files, ws) - Work(files[k], ws[k]) + Work(files[k], v)
  {
    var n := |ws| - 1;
    if k < n {
      assert ws[k := v][..n] == ws[..n][k := v];
      TotalWorkUpdate(files[..n], ws[..n], k, v);
    } else {
      assert ws[k := v][..n] == ws[..n];
    }
  }

  lemma {:induction false} TotalWorkNonNegative(files: seq<seq<Xfer>>, ws: seq<Worker>)
    requires |files| == |ws| && forall k :: 0 <= k < |ws| ==> ws[k].i <= |files[k]|
    ensures TotalWork(files, ws) >= 0
  {
    if ws != [] {
      TotalWorkNonNegative(files[..|ws| - 1], ws[..|ws| - 1]);
    }
  }

  function Steps(files: seq<seq<Xfer>>): nat {
    if files == [] then 0 else Steps(files[..|files| - 1]) + 6 * |files[|files| - 1]| + 1
  }

  lemma {:induction false} TotalWorkInit(files: seq<seq<Xfer>>, ws: seq<Worker>)
    requires |files| == |ws| && forall k :: 0 <= k < |ws| ==> ws[k] == FRESH
    ensures TotalWork(files, ws) == Steps(files)
  {
    if ws != [] {
      TotalWorkInit(files[..|ws| - 1], ws[..|ws| - 1]);
    }
  }

  lemma TotalWorkDecreases(cfg: Config, s: State, e: Event, s': State)
    requires Step(cfg, s, e, s')
    ensures |s'.workers| == |s.workers| && TotalWork(cfg.files, s'.workers) < TotalWork(cfg.files, s.workers)
  {
    WorkDecreases(cfg, s, e, s');
    OthersKept(cfg, s, e, s');
    assert s'.workers == s.workers[e.w := s'.workers[e.w]];
    TotalWorkUpdate(cfg.files, s.workers, e.w, s'.workers[e.w]);
  }

  lemma {:induction false} WorkAlongRun(cfg: Config, states: seq<State>, events: seq<Event>, t: nat)
    requires IsRun(cfg, states, events) && t < |states|
    ensures |states[t].workers| == |cfg.files|
    ensures TotalWork(cfg.files, states[t].workers) <= Steps(cfg.files) - t
  {
    if t == 0 {
      TotalWorkInit(cfg.files, states[0].workers);
    } else {
      WorkAlongRun(cfg, states, events, t - 1);
      TotalWorkDecreases(cfg, states[t - 1], events[t - 1], states[t]);
    }
  }

  /** Every run is finite: six steps for an item and one for each worker
      bound its length, under every interleaving. */
  lemma RunsAreBounded(cfg: Config, states: seq<State>, events: seq<Event>)
    requires IsRun(cfg, states, events)
    ensures |events| <= Steps(cfg.files)
  {
    var t := |events|;
    WorkAlongRun(cfg, states, events, t);
    CoreAlongRun(cfg, states, events, t);
    forall k | 0 <= k < |states[t].workers| ensures states[t].workers[k].i <= |cfg.files[k]| {
      assert WorkerInv(cfg.mpt, cfg.files[k], states[t].workers[k]);
    }
    TotalWorkNonNegative(cfg.files, states[t].workers);
  }

  // ---- success ---------------------------------------------------------

  ghost predicate AllSucceeded(s: State) {
    forall k :: 0 <= k < |s.workers| ==> s.workers[k].outcome == Returned(0)
  }

  lemma SuccessReapsAll(mpt: nat, files: seq<Xfer>, w: Worker)
    requires WorkerInv(mpt, files, w) && w.outcome == Returned(0)
    ensures forall j :: 0 <= j < |files| ==> j in w.reaped && j < |w.xfers| && w.xfers[j] == Exited(0)
    ensures forall m :: 0 <= m < |w.joins| ==> w.joins[m].status == Exited(0)
  {
  }

  lemma SuccessIsDone(cfg: Config, s: State, w: int, j: int)
    requires WorkersInv(cfg, s) && AllSucceeded(s) && IsSlot(cfg.files, w, j)
    ensures (w, j) in Done(s) && CopiedOk(s, w, j)
  {
    assert WorkerInv(cfg.mpt, cfg.files[w], s.workers[w]);
    SuccessReapsAll(cfg.mpt, cfg.files[w], s.workers[w]);
  }

  lemma SuccessCoversPieces(cfg: Config, s: State, d: string)
    requires WorkersInv(cfg, s) && AllSucceeded(s)
    ensures PieceSet(cfg, d) <= Done(s)
  {
    forall x | x in PieceSet(cfg, d) ensures x in Done(s) {
      assert IsSlot(cfg.files, x.0, x.1);
      SuccessIsDone(cfg, s, x.0, x.1);
    }
  }

  lemma SuccessCountsZero(
      cfg: Config, pieces: map<string, seq<Bytes>>, s: State, d: string)
    requires PlanOk(cfg, pieces) && CountsInv(cfg, s) && PieceSet(cfg, d) <= Done(s)
    requires d in pieces && !LooksLikePiece(d)
    ensures d in s.counts && s.counts[d] == 0
  {
    PlanSizes(cfg, pieces, d);
    assert Done(s) * PieceSet(cfg, d) == PieceSet(cfg, d);
    assert CountMatches(cfg, s.counts, Done(s), d);
  }

  /** When every worker reports success, every split file has been joined,
      exactly once, and the join has succeeded. */
  lemma SuccessJoinsOnce(
      cfg: Config, pieces: map<string, seq<Bytes>>, before: map<string, Bytes>, s: State, d: string)
    requires Inv(cfg, pieces, before, s) && AllSucceeded(s) && d in pieces
    ensures Joined(s, d)
    ensures exists w, m :: IsJoin(s, w, m, d) && forall w', m' :: IsJoin(s, w', m', d) ==> w' == w && m' == m
  {
    SuccessParses(cfg, pieces, s, d);
    SuccessCoversPieces(cfg, s, d);
    SuccessCountsZero(cfg, pieces, s, d);
    var w, m :| IsJoin(s, w, m, d);
    SuccessfulJoin(cfg, s, w, m, d);
  }

  lemma SuccessfulJoin(cfg: Config, s: State, w: int, m: int, d: string)
    requires WorkersInv(cfg, s) && AllSucceeded(s) && IsJoin(s, w, m, d)
    ensures s.workers[w].joins[m].status == Exited(0)
  {
    assert WorkerInv(cfg.mpt, cfg.files[w], s.workers[w]);
    SuccessReapsAll(cfg.mpt, cfg.files[w], s.workers[w]);
  }

  /** A destination that reads like a piece makes its worker crash, so it
      never takes part in a successful run. */
  lemma SuccessParses(
      cfg: Config, pieces: map<string, seq<Bytes>>, s: State, d: string)
    requires PlanOk(cfg, pieces) && WorkersInv(cfg, s) && CountsInv(cfg, s)
    requires AllSucceeded(s) && d in pieces
    ensures !LooksLikePiece(d)
  {
    assert PiecePlaced(cfg, d, 0, |pieces[d]|, pieces[d][0]);
    var w, j :| PieceSlot(cfg, w, j, d, 0, |pieces[d]|, pieces[d][0]);
    SuccessIsDone(cfg, s, w, j);
    var x := (w, j);
    assert x in Done(s) && IsSlot(cfg.files, x.0, x.1);
    TargetOfPiece(d, 0, PadWidth(|pieces[d]|));
    assert TargetOf(d) in pieces;
    ParsesToItself(pieces, d);
  }

  lemma ParsesToItself(pieces: map<string, seq<Bytes>>, d: string)
    requires NotNested(pieces) && d in pieces && TargetOf(d) in pieces
    ensures !LooksLikePiece(d)
  {
  }
}
