/** The body of one worker thread as a loop over its local lists
    (convoy/data.py), refined against the worker steps of `Transfer`. */
module WorkerLoop {
  import opened Common
  import opened SplitNames
  import opened Packing
  import opened Transfer
  import opened TransferInvariant
  import opened TransferRuns

  /** What the environment answers at one wait: which list and position the
      exited process is found at, its return code, and what the locked
      decrement of the shared countdown yields. */
  datatype Answer = Answer(inPieces: bool, position: nat, code: int, decrement: Decrement)

  /** The effect of a system step on the worker that takes it. */
  ghost predicate LocalStep(mpt: nat, files: seq<Xfer>, w: Worker, e: Event, v: Worker) {
    match e
    case Spawn(_) => CanSpawn(mpt, files, w) && v == Spawned(files, w)
    case Exit(_, h, code) => HasHandle(w, h) && StatusOf(w, h) == Running && v == WithExit(w, h, code)
    case ReapPiece(_, n) =>
      && AtWait(mpt, files, w) && n < |w.psprocs| == |w.psdst| && w.psprocs[n].Copy? && HasHandle(w, w.psprocs[n])
      && var st := StatusOf(w, w.psprocs[n]);
      && st.Exited?
      && (if st.code != 0 then v == w.(outcome := Returned(st.code))
          else v in {PieceReaped(w, n, NoKey), PieceReaped(w, n, Remaining), PieceReaped(w, n, Last)})
    case ReapPlain(_, n) =>
      && AtWait(mpt, files, w) && n < |w.procs| && HasHandle(w, w.procs[n])
      && var st := StatusOf(w, w.procs[n]);
      && st.Exited?
      && v == (if st.code != 0 then w.(outcome := Returned(st.code)) else PlainReaped(w, n))
    case Finish(_) => w.outcome == Active && w.completed == |files| && v == w.(outcome := Returned(0))
  }

  /** Every step of the whole system is a local step of its worker. */
  lemma StepIsLocal(cfg: Config, s: State, e: Event, s': State)
    requires Step(cfg, s, e, s')
    ensures |s'.workers| == |s.workers|
    ensures LocalStep(cfg.mpt, cfg.files[e.w], s.workers[e.w], e, s'.workers[e.w])
  {
  }

  /** What the locked decrement of a countdown finds. */
  function Decremented(counts: map<string, int>, dst: string): Decrement {
    if dst !in counts then NoKey else if counts[dst] == 1 then Last else Remaining
  }

  /** The local step took the decrement that the shared countdowns hold ready. */
  predicate Agrees(s: State, w: Worker, e: Event, v: Worker) {
    e.ReapPiece? && e.n < |w.psprocs| == |w.psdst| && w.psprocs[e.n].Copy? && v.outcome in {Active, Crashed} ==>
      v == PieceReaped(w, e.n, Decremented(s.counts, w.psdst[e.n]))
  }

  /** What a process leaves at the destination when nothing else goes wrong. */
  ghost function RemoteAfter(s: State, files: seq<Xfer>, w: Worker, h: Handle, code: int): map<string, Bytes>
    requires HasHandle(w, h) && (h.Copy? ==> h.j < |files|)
  {
    if code != 0 then s.remote
    else
      match h
      case Copy(j) => s.remote[files[j].name := Received(files[j])]
      case JoinProc(m) => JoinFiles(s.remote, w.joins[m].dst)
  }

  /** And a local step that agrees with the countdowns is the step of that worker
      in a step of the whole system. */
  lemma LocalIsStep(cfg: Config, s: State, e: Event, v: Worker) returns (s': State)
    requires e.w < |s.workers| == |cfg.files| && WorkerInv(cfg.mpt, cfg.files[e.w], s.workers[e.w])
    requires LocalStep(cfg.mpt, cfg.files[e.w], s.workers[e.w], e, v) && Agrees(s, s.workers[e.w], e, v)
    ensures Step(cfg, s, e, s') && s'.workers == s.workers[e.w := v]
  {
    var w := s.workers[e.w];
    s' := WithWorker(s, e.w, v);
    if e.Exit? {
      s' := s'.(remote := RemoteAfter(s, cfg.files[e.w], w, e.h, e.code));
      assert ExitStep(cfg, s, e.w, e.h, e.code, s');
    } else if e.ReapPiece? {
      s' := ReapIsStep(cfg, s, e.w, e.n, v);
    }
  }

  lemma ReapIsStep(cfg: Config, s: State, k: nat, n: nat, v: Worker) returns (s': State)
    requires k < |s.workers| == |cfg.files| && WorkerInv(cfg.mpt, cfg.files[k], s.workers[k])
    requires LocalStep(cfg.mpt, cfg.files[k], s.workers[k], ReapPiece(k, n), v)
    requires Agrees(s, s.workers[k], ReapPiece(k, n), v)
    ensures ReapPieceStep(cfg, s, k, n, s') && s'.workers == s.workers[k := v]
  {
    var w := s.workers[k];
    var dst := w.psdst[n];
    s' := WithWorker(s, k, v);
    if StatusOf(w, w.psprocs[n]).code == 0 {
      assert w.outcome == Active;
      if dst in s.counts {
        s' := s'.(counts := s.counts[dst := s.counts[dst] - 1]);
      }
    }
  }

  /** A history of local steps from a fresh worker to w. */
  ghost predicate IsPath(mpt: nat, files: seq<Xfer>, path: seq<Worker>, events: seq<Event>, w: Worker) {
    && |path| == |events| + 1 && path[0] == FRESH && path[|events|] == w
    && forall t :: 0 <= t < |events| ==> LocalStep(mpt, files, path[t], events[t], path[t + 1])
  }

  lemma PathSnoc(mpt: nat, files: seq<Xfer>, path: seq<Worker>, events: seq<Event>, w: Worker, e: Event, v: Worker)
    requires IsPath(mpt, files, path, events, w) && LocalStep(mpt, files, w, e, v)
    ensures IsPath(mpt, files, path + [v], events + [e], v)
  {
    forall t | 0 <= t < |events + [e]|
      ensures LocalStep(mpt, files, (path + [v])[t], (events + [e])[t], (path + [v])[t + 1])
    {
      if t < |events| {
        assert LocalStep(mpt, files, path[t], events[t], path[t + 1]);
      }
    }
  }

  predicate AllRunning(w: Worker) {
    (forall n :: 0 <= n < |w.psprocs| ==> HasHandle(w, w.psprocs[n]) && StatusOf(w, w.psprocs[n]) == Running) &&
    (forall n :: 0 <= n < |w.procs| ==> HasHandle(w, w.procs[n]) && StatusOf(w, w.procs[n]) == Running)
  }

  function JoinsIn(procs: seq<Handle>): nat {
    if procs == [] then 0 else JoinsIn(procs[..|procs| - 1]) + (if procs[|procs| - 1].JoinProc? then 1 else 0)
  }

  lemma RemoveSnoc<T>(s: seq<T>, n: nat)
    requires n < |s| - 1
    ensures |Remove(s, n)| == |s| - 1 && Remove(s, n)[|s| - 2] == s[|s| - 1]
    ensures Remove(s, n)[..|s| - 2] == Remove(s[..|s| - 1], n)
  {
  }

  lemma {:induction false} JoinsInRemove(procs: seq<Handle>, n: nat)
    requires n < |procs|
    ensures JoinsIn(Remove(procs, n)) == JoinsIn(procs) - (if procs[n].JoinProc? then 1 else 0)
  {
    var l := |procs| - 1;
    if n == l {
      assert Remove(procs, n) == procs[..l];
    } else {
      RemoveSnoc(procs, n);
      JoinsInRemove(procs[..l], n);
    }
  }

  lemma {:induction false} JoinsInBound(procs: seq<Handle>)
    ensures JoinsIn(procs) <= |procs|
  {
    if procs != [] {
      JoinsInBound(procs[..|procs| - 1]);
    }
  }

  /** The source compares the returned list with `psprocs` by value. The two
      lists are equal only when they are the same list. */
  lemma ListsDiffer(mpt: nat, files: seq<Xfer>, w: Worker)
    requires WorkerInv(mpt, files, w) && w.procs != []
    ensures w.procs != w.psprocs
  {
    if w.psprocs != [] {
      assert PieceHandleOk(files, w, 0) && PlainHandleOk(files, w, 0);
    }
  }

  lemma SpawnKeepsRunning(mpt: nat, files: seq<Xfer>, w: Worker)
    requires WorkerInv(mpt, files, w) && CanSpawn(mpt, files, w) && AllRunning(w)
    ensures AllRunning(Spawned(files, w)) && JoinsIn(Spawned(files, w).procs) == JoinsIn(w.procs)
  {
    var v := Spawned(files, w);
    assert v.procs == w.procs || v.procs[..|w.procs|] == w.procs;
  }

  lemma ReapKeepsRunning(mpt: nat, files: seq<Xfer>, w: Worker, h: Handle)
    requires WorkerInv(mpt, files, w) && AllRunning(w) && HasHandle(w, h)
    ensures forall n :: 0 <= n < |w.psprocs| && w.psprocs[n] != h ==>
      StatusOf(WithExit(w, h, 0), w.psprocs[n]) == Running
    ensures forall n :: 0 <= n < |w.procs| && w.procs[n] != h ==>
      StatusOf(WithExit(w, h, 0), w.procs[n]) == Running
  {
  }

  lemma PieceStillRunning(mpt: nat, files: seq<Xfer>, w: Worker, n: nat, d: Decrement, k: nat)
    requires WorkerInv(mpt, files, w) && AllRunning(w) && n < |w.psprocs| == |w.psdst| && w.psprocs[n].Copy?
    requires k < |w.psprocs| - 1
    ensures var v := PieceReaped(WithExit(w, w.psprocs[n], 0), n, d);
      HasHandle(v, v.psprocs[k]) && StatusOf(v, v.psprocs[k]) == Running
  {
    var v := PieceReaped(WithExit(w, w.psprocs[n], 0), n, d);
    ReapKeepsRunning(mpt, files, w, w.psprocs[n]);
    var k' := if k < n then k else k + 1;
    assert v.psprocs[k] == w.psprocs[k'] && w.psprocs[k'] != w.psprocs[n];
    assert PieceHandleOk(files, w, k');
  }

  lemma PlainStillRunning(mpt: nat, files: seq<Xfer>, w: Worker, n: nat, d: Decrement, k: nat)
    requires WorkerInv(mpt, files, w) && AllRunning(w) && n < |w.psprocs| == |w.psdst| && w.psprocs[n].Copy?
    requires k < |PieceReaped(WithExit(w, w.psprocs[n], 0), n, d).procs|
    ensures var v := PieceReaped(WithExit(w, w.psprocs[n], 0), n, d);
      HasHandle(v, v.procs[k]) && StatusOf(v, v.procs[k]) == Running
  {
    ReapKeepsRunning(mpt, files, w, w.psprocs[n]);
    if k < |w.procs| {
      assert PieceHandleOk(files, w, n) && PlainHandleOk(files, w, k);
    }
  }

  lemma PieceReapKeeps(mpt: nat, files: seq<Xfer>, w: Worker, n: nat, d: Decrement)
    requires WorkerInv(mpt, files, w) && AllRunning(w) && n < |w.psprocs| == |w.psdst| && w.psprocs[n].Copy?
    ensures var v := PieceReaped(WithExit(w, w.psprocs[n], 0), n, d);
      AllRunning(v) && JoinsIn(v.procs) == JoinsIn(w.procs) + (if d == Last then 1 else 0)
  {
    var v := PieceReaped(WithExit(w, w.psprocs[n], 0), n, d);
    forall k | 0 <= k < |v.psprocs| ensures HasHandle(v, v.psprocs[k]) && StatusOf(v, v.psprocs[k]) == Running {
      PieceStillRunning(mpt, files, w, n, d, k);
    }
    forall k | 0 <= k < |v.procs| ensures HasHandle(v, v.procs[k]) && StatusOf(v, v.procs[k]) == Running {
      PlainStillRunning(mpt, files, w, n, d, k);
    }
    assert v.procs == w.procs || v.procs[..|w.procs|] == w.procs;
  }

  lemma PlainReapKeeps(mpt: nat, files: seq<Xfer>, w: Worker, n: nat)
    requires WorkerInv(mpt, files, w) && AllRunning(w) && n < |w.procs|
    ensures var v := PlainReaped(WithExit(w, w.procs[n], 0), n);
      AllRunning(v) && JoinsIn(v.procs) == JoinsIn(w.procs) - (if w.procs[n].JoinProc? then 1 else 0)
  {
    var u := WithExit(w, w.procs[n], 0);
    var v := PlainReaped(u, n);
    ReapKeepsRunning(mpt, files, w, w.procs[n]);
    JoinsInRemove(w.procs, n);
    forall k | 0 <= k < |v.procs| ensures HasHandle(v, v.procs[k]) && StatusOf(v, v.procs[k]) == Running {
      var k' := if k < n then k else k + 1;
      assert v.procs[k] == w.procs[k'] && w.procs[k'] != w.procs[n];
    }
    forall k | 0 <= k < |w.psprocs| ensures w.psprocs[k] != w.procs[n] {
      assert PieceHandleOk(files, w, k) && PlainHandleOk(files, w, n);
    }
  }

  /** The local variables of the thread agree with the worker of the system,
      all of whose outstanding processes are still running. */
  ghost predicate Tracks(
      mpt: nat, files: seq<Xfer>, w: Worker, i: nat, completed: nat,
      procs: seq<Handle>, psprocs: seq<Handle>, psdst: seq<string>)
  {
    && WorkerInv(mpt, files, w) && AllRunning(w) && w.outcome == Active
    && w.i == i && w.completed == completed
    && w.procs == procs && w.psprocs == psprocs && w.psdst == psdst
  }

  /** The inner loop: spawn transfers up to the limit. */
  method SpawnTransfers(
      files: seq<Xfer>, mpt: nat, i0: nat, completed: nat,
      procs0: seq<Handle>, psprocs0: seq<Handle>, psdst0: seq<string>,
      ghost w0: Worker, ghost path0: seq<Worker>, ghost events0: seq<Event>)
      returns (i: nat, procs: seq<Handle>, psprocs: seq<Handle>, psdst: seq<string>,
        ghost w: Worker, ghost path: seq<Worker>, ghost events: seq<Event>)
    requires completed != |files| && Tracks(mpt, files, w0, i0, completed, procs0, psprocs0, psdst0)
    requires IsPath(mpt, files, path0, events0, w0)
    ensures Tracks(mpt, files, w, i, completed, procs, psprocs, psdst) && IsPath(mpt, files, path, events, w)
    ensures |procs| + |psprocs| >= mpt || i == |files|
    ensures JoinsIn(procs) == JoinsIn(procs0) && w.joins == w0.joins && ExitCodes(events) == ExitCodes(events0)
  {
    i, procs, psprocs, psdst := i0, procs0, psprocs0, psdst0;
    w, path, events := w0, path0, events0;
    var xfers := |procs| + |psprocs|;
    while xfers < mpt && i < |files|
      invariant xfers == |procs| + |psprocs|
      invariant Tracks(mpt, files, w, i, completed, procs, psprocs, psdst) && IsPath(mpt, files, path, events, w)
      invariant JoinsIn(procs) == JoinsIn(procs0) && w.joins == w0.joins && ExitCodes(events) == ExitCodes(events0)
      decreases |files| - i
    {
      SpawnedInv(mpt, files, w);
      SpawnKeepsRunning(mpt, files, w);
      PathSnoc(mpt, files, path, events, w, Spawn(0), Spawned(files, w));
      ExitCodesSnoc(events, Spawn(0));
      w := Spawned(files, w);
      path, events := path + [w], events + [Spawn(0)];
      if files[i].range.None? {
        procs := procs + [Copy(i)];
      } else {
        psprocs := psprocs + [Copy(i)];
        psdst := psdst + [TargetOf(files[i].name)];
      }
      xfers := |procs| + |psprocs|;
      i := i + 1;
    }
  }

  /** The exited process is one of a split piece. */
  predicate FoundInPieces(psprocs: seq<Handle>, procs: seq<Handle>, a: Answer) {
    psprocs != [] && (a.inPieces || procs == [])
  }

  /** subprocess_wait_multi: some outstanding process has exited. */
  method WaitMulti(psprocs: seq<Handle>, procs: seq<Handle>, a: Answer)
      returns (plist: seq<Handle>, n: nat, rc: int)
    requires psprocs != [] || procs != []
    ensures plist == if FoundInPieces(psprocs, procs, a) then psprocs else procs
    ensures n < |plist| && rc == a.code
  {
    plist := if psprocs != [] && (a.inPieces || procs == []) then psprocs else procs;
    n, rc := a.position % |plist|, a.code;
  }

  lemma FoundByValue(mpt: nat, files: seq<Xfer>, w: Worker, a: Answer, plist: seq<Handle>)
    requires WorkerInv(mpt, files, w) && (w.psprocs != [] || w.procs != [])
    requires plist == if FoundInPieces(w.psprocs, w.procs, a) then w.psprocs else w.procs
    ensures plist == w.psprocs <==> FoundInPieces(w.psprocs, w.procs, a)
  {
    if w.procs != [] {
      ListsDiffer(mpt, files, w);
    }
  }

  /** The exit codes of a history. */
  function ExitCodes(events: seq<Event>): seq<int> {
    if events == [] then []
    else
      ExitCodes(events[..|events| - 1]) +
      match events[|events| - 1]
      case Exit(_, _, code) => [code]
      case _ => []
  }

  /** The codes of the first n answers. */
  function Codes(env: nat -> Answer, n: nat): seq<int> {
    if n == 0 then [] else Codes(env, n - 1) + [env(n - 1).code]
  }

  lemma ExitCodesSnoc(events: seq<Event>, e: Event)
    ensures ExitCodes(events + [e]) == ExitCodes(events) + if e.Exit? then [e.code] else []
  {
    assert (events + [e])[..|events|] == events;
  }

  /** The history after a wait that found the process h at place n: its exit with the code
      that was answered, and its reaping. */
  predicate AfterWait(before: seq<Event>, pieces: bool, h: Handle, n: nat, code: int, events: seq<Event>) {
    && events == before + [Exit(0, h, code)] + [if pieces then ReapPiece(0, n) else ReapPlain(0, n)]
    && ExitCodes(events) == ExitCodes(before) + [code]
  }

  lemma WaitIsLogged(before: seq<Event>, pieces: bool, h: Handle, n: nat, code: int)
    ensures AfterWait(before, pieces, h, n, code,
      before + [Exit(0, h, code)] + [if pieces then ReapPiece(0, n) else ReapPlain(0, n)])
  {
    ExitCodesSnoc(before, Exit(0, h, code));
    ExitCodesSnoc(before + [Exit(0, h, code)], if pieces then ReapPiece(0, n) else ReapPlain(0, n));
  }

  /** The exit and the reaping of one process, as two steps of the history. */
  lemma ReapSteps(
      mpt: nat, files: seq<Xfer>, w: Worker, path: seq<Worker>, events: seq<Event>, h: Handle, code: int, e: Event, v: Worker)
    requires IsPath(mpt, files, path, events, w) && WorkerInv(mpt, files, w)
    requires HasHandle(w, h) && StatusOf(w, h) == Running
    requires LocalStep(mpt, files, WithExit(w, h, code), e, v)
    ensures IsPath(mpt, files, path + [WithExit(w, h, code)] + [v], events + [Exit(0, h, code)] + [e], v)
    ensures WorkerInv(mpt, files, WithExit(w, h, code))
  {
    WithExitInv(mpt, files, w, h, code);
    PathSnoc(mpt, files, path, events, w, Exit(0, h, code), WithExit(w, h, code));
    PathSnoc(mpt, files, path + [WithExit(w, h, code)], events + [Exit(0, h, code)], WithExit(w, h, code), e, v);
  }

  /** Reaping a piece that exited with code 0. */
  lemma PieceRound(
      mpt: nat, files: seq<Xfer>, w: Worker, path: seq<Worker>, events: seq<Event>, n: nat, d: Decrement)
      returns (v: Worker, path': seq<Worker>, events': seq<Event>)
    requires IsPath(mpt, files, path, events, w) && WorkerInv(mpt, files, w) && AllRunning(w)
    requires AtWait(mpt, files, w) && n < |w.psprocs| && w.psprocs[n].Copy? && HasHandle(w, w.psprocs[n])
    ensures v.i == w.i && v.psprocs == Remove(w.psprocs, n) && v.psdst == Remove(w.psdst, n)
    ensures v.procs == w.procs + (if d == Last then [JoinProc(|w.joins|)] else [])
    ensures |v.joins| == |w.joins| + (if d == Last then 1 else 0)
    ensures v.completed == w.completed + (if d == Remaining then 1 else 0)
    ensures v.outcome == if d == NoKey then Crashed else Active
    ensures events' == events + [Exit(0, w.psprocs[n], 0)] + [ReapPiece(0, n)]
    ensures IsPath(mpt, files, path', events', v) && WorkerInv(mpt, files, v) && AllRunning(v)
    ensures JoinsIn(v.procs) == JoinsIn(w.procs) + (if d == Last then 1 else 0)
  {
    HandlesExist(mpt, files, w);
    var h := w.psprocs[n];
    var u := WithExit(w, h, 0);
    v := PieceReaped(u, n, d);
    PieceReapKeeps(mpt, files, w, n, d);
    ReapSteps(mpt, files, w, path, events, h, 0, ReapPiece(0, n), v);
    PieceReapedInv(mpt, files, u, n, d);
    path', events' := path + [u] + [v], events + [Exit(0, h, 0)] + [ReapPiece(0, n)];
  }

  /** Reaping a whole file or a join that exited with code 0. */
  lemma PlainRound(mpt: nat, files: seq<Xfer>, w: Worker, path: seq<Worker>, events: seq<Event>, n: nat)
      returns (v: Worker, path': seq<Worker>, events': seq<Event>)
    requires IsPath(mpt, files, path, events, w) && WorkerInv(mpt, files, w) && AllRunning(w)
    requires AtWait(mpt, files, w) && n < |w.procs| && HasHandle(w, w.procs[n])
    ensures v.i == w.i && v.procs == Remove(w.procs, n) && v.psprocs == w.psprocs && v.psdst == w.psdst
    ensures |v.joins| == |w.joins| && v.completed == w.completed + 1 && v.outcome == Active
    ensures events' == events + [Exit(0, w.procs[n], 0)] + [ReapPlain(0, n)]
    ensures IsPath(mpt, files, path', events', v) && WorkerInv(mpt, files, v) && AllRunning(v)
    ensures JoinsIn(v.procs) == JoinsIn(w.procs) - (if w.procs[n].JoinProc? then 1 else 0)
  {
    HandlesExist(mpt, files, w);
    var h := w.procs[n];
    var u := WithExit(w, h, 0);
    v := PlainReaped(u, n);
    PlainReapKeeps(mpt, files, w, n);
    ReapSteps(mpt, files, w, path, events, h, 0, ReapPlain(0, n), v);
    PlainReapedInv(mpt, files, u, n);
    path', events' := path + [u] + [v], events + [Exit(0, h, 0)] + [ReapPlain(0, n)];
  }

  /** A process that exited with another code ends the thread. */
  lemma FailRound(
      mpt: nat, files: seq<Xfer>, w: Worker, path: seq<Worker>, events: seq<Event>, inPieces: bool, n: nat, rc: int)
      returns (v: Worker, path': seq<Worker>, events': seq<Event>)
    requires IsPath(mpt, files, path, events, w) && WorkerInv(mpt, files, w) && AllRunning(w)
    requires AtWait(mpt, files, w) && n < |if inPieces then w.psprocs else w.procs| && rc != 0
    ensures IsPath(mpt, files, path', events', v) && WorkerInv(mpt, files, v) && v.outcome == Returned(rc)
    ensures events' == events + [Exit(0, (if inPieces then w.psprocs else w.procs)[n], rc)] +
      [if inPieces then ReapPiece(0, n) else ReapPlain(0, n)]
  {
    HandlesExist(mpt, files, w);
    var h := (if inPieces then w.psprocs else w.procs)[n];
    var u := WithExit(w, h, rc);
    var e := if inPieces then ReapPiece(0, n) else ReapPlain(0, n);
    v := u.(outcome := Returned(rc));
    ReapSteps(mpt, files, w, path, events, h, rc, e, v);
    ReturnedInv(mpt, files, u, rc);
    path', events' := path + [u] + [v], events + [Exit(0, h, rc)] + [e];
  }

  /** The normal end of the loop. */
  lemma FinishRound(mpt: nat, files: seq<Xfer>, w: Worker, path: seq<Worker>, events: seq<Event>)
      returns (v: Worker, path': seq<Worker>, events': seq<Event>)
    requires IsPath(mpt, files, path, events, w) && WorkerInv(mpt, files, w)
    requires w.outcome == Active && w.completed == |files|
    ensures IsPath(mpt, files, path', events', v) && WorkerInv(mpt, files, v) && v.outcome == Returned(0)
    ensures v.procs == [] && v.psprocs == [] && ExitCodes(events') == ExitCodes(events)
    ensures forall j :: 0 <= j < |files| ==> j in v.reaped
    ensures forall m :: 0 <= m < |v.joins| ==> v.joins[m].status == Exited(0)
  {
    v := w.(outcome := Returned(0));
    ReturnedInv(mpt, files, w, 0);
    PathSnoc(mpt, files, path, events, w, Finish(0), v);
    ExitCodesSnoc(events, Finish(0));
    path', events' := path + [v], events + [Finish(0)];
  }

  /** What a wait comes to: a code other than 0 ends the thread with that code; else the
      thread goes on, unless a piece has no countdown, and the decrement of its countdown
      says whether a join starts. */
  predicate Settles(w0: Worker, a: Answer, w: Worker) {
    if a.code != 0 then w.outcome == Returned(a.code)
    else if FoundInPieces(w0.psprocs, w0.procs, a) then
      && w.outcome == (if a.decrement == NoKey then Crashed else Active)
      && |w.joins| == |w0.joins| + (if a.decrement == Last then 1 else 0)
      && w.completed == w0.completed + (if a.decrement == Remaining then 1 else 0)
    else w.outcome == Active && |w.joins| == |w0.joins| && w.completed == w0.completed + 1
  }

  /** The branch for a piece that exited with code 0. */
  method ReapPieceNext(
      files: seq<Xfer>, mpt: nat, d: Decrement, n: nat, ghost i: nat, completed0: nat,
      procs0: seq<Handle>, psprocs0: seq<Handle>, psdst0: seq<string>, njoins0: nat,
      ghost w0: Worker, ghost path0: seq<Worker>, ghost events0: seq<Event>)
      returns (outcome: Outcome, completed: nat,
        procs: seq<Handle>, psprocs: seq<Handle>, psdst: seq<string>, njoins: nat,
        ghost w: Worker, ghost path: seq<Worker>, ghost events: seq<Event>)
    requires Tracks(mpt, files, w0, i, completed0, procs0, psprocs0, psdst0) && |w0.joins| == njoins0
    requires IsPath(mpt, files, path0, events0, w0) && AtWait(mpt, files, w0) && n < |psprocs0|
    ensures IsPath(mpt, files, path, events, w) && WorkerInv(mpt, files, w)
    ensures events == events0 + [Exit(0, psprocs0[n], 0)] + [ReapPiece(0, n)]
    ensures outcome == w.outcome == (if d == NoKey then Crashed else Active)
    ensures |w.joins| == |w0.joins| + (if d == Last then 1 else 0)
    ensures w.completed == w0.completed + (if d == Remaining then 1 else 0)
    ensures outcome == Active ==>
      && Tracks(mpt, files, w, i, completed, procs, psprocs, psdst) && |w.joins| == njoins
      && 2 * completed + JoinsIn(procs) > 2 * completed0 + JoinsIn(procs0)
  {
    completed, procs, njoins, outcome := completed0, procs0, njoins0, Active;
    HandlesExist(mpt, files, w0);
    w, path, events := PieceRound(mpt, files, w0, path0, events0, n, d);
    psdst := Remove(psdst0, n);
    psprocs := Remove(psprocs0, n);
    if d == NoKey {
      outcome := Crashed;
    } else if d == Last {
      procs := procs + [JoinProc(njoins)];
      njoins := njoins + 1;
    } else {
      completed := completed + 1;
    }
  }

  /** The branch for a whole file or a join that exited with code 0. */
  method ReapPlainNext(
      files: seq<Xfer>, mpt: nat, n: nat, ghost i: nat, completed0: nat,
      procs0: seq<Handle>, psprocs: seq<Handle>, psdst: seq<string>,
      ghost w0: Worker, ghost path0: seq<Worker>, ghost events0: seq<Event>)
      returns (completed: nat, procs: seq<Handle>, ghost w: Worker, ghost path: seq<Worker>, ghost events: seq<Event>)
    requires Tracks(mpt, files, w0, i, completed0, procs0, psprocs, psdst)
    requires IsPath(mpt, files, path0, events0, w0) && AtWait(mpt, files, w0) && n < |procs0|
    ensures IsPath(mpt, files, path, events, w) && WorkerInv(mpt, files, w)
    ensures events == events0 + [Exit(0, procs0[n], 0)] + [ReapPlain(0, n)]
    ensures w.outcome == Active && |w.joins| == |w0.joins| && w.completed == w0.completed + 1
    ensures Tracks(mpt, files, w, i, completed, procs, psprocs, psdst)
    ensures 2 * completed + JoinsIn(procs) > 2 * completed0 + JoinsIn(procs0)
  {
    HandlesExist(mpt, files, w0);
    w, path, events := PlainRound(mpt, files, w0, path0, events0, n);
    procs := Remove(procs0, n);
    completed := completed0 + 1;
  }

  /** The second half of the loop body: wait for a process and reap it. The
      outcome stays Active when the loop is to go on; the measure then has
      gone down. */
  method ReapNext(
      files: seq<Xfer>, mpt: nat, a: Answer, ghost i: nat, completed0: nat,
      procs0: seq<Handle>, psprocs0: seq<Handle>, psdst0: seq<string>, njoins0: nat,
      ghost w0: Worker, ghost path0: seq<Worker>, ghost events0: seq<Event>)
      returns (outcome: Outcome, completed: nat,
        procs: seq<Handle>, psprocs: seq<Handle>, psdst: seq<string>, njoins: nat,
        ghost n: nat, ghost w: Worker, ghost path: seq<Worker>, ghost events: seq<Event>)
    requires Tracks(mpt, files, w0, i, completed0, procs0, psprocs0, psdst0) && |w0.joins| == njoins0
    requires IsPath(mpt, files, path0, events0, w0) && AtWait(mpt, files, w0) && mpt > 0
    ensures IsPath(mpt, files, path, events, w) && WorkerInv(mpt, files, w)
    ensures var list := if FoundInPieces(psprocs0, procs0, a) then psprocs0 else procs0;
      n < |list| && AfterWait(events0, FoundInPieces(psprocs0, procs0, a), list[n], n, a.code, events)
    ensures if a.code != 0 then outcome == Returned(a.code) else outcome in {Active, Crashed}
    ensures outcome == w.outcome && Settles(w0, a, w)
    ensures outcome == Active ==>
      && Tracks(mpt, files, w, i, completed, procs, psprocs, psdst) && |w.joins| == njoins
      && 2 * completed + JoinsIn(procs) > 2 * completed0 + JoinsIn(procs0)
  {
    completed, procs, psprocs, psdst, njoins := completed0, procs0, psprocs0, psdst0, njoins0;
    WaitHasProcess(mpt, files, w0);
    var plist, at, rc := WaitMulti(psprocs, procs, a);
    n := at;
    FoundByValue(mpt, files, w0, a, plist);
    WaitIsLogged(events0, plist == psprocs, plist[at], at, rc);
    if rc != 0 {
      w, path, events := FailRound(mpt, files, w0, path0, events0, plist == psprocs, at, rc);
      outcome := Returned(rc);
    } else if plist == psprocs {
      outcome, completed, procs, psprocs, psdst, njoins, w, path, events :=
        ReapPieceNext(files, mpt, a.decrement, at, i, completed, procs, psprocs, psdst, njoins, w0, path0, events0);
    } else {
      completed, procs, w, path, events :=
        ReapPlainNext(files, mpt, at, i, completed, procs, psprocs, psdst, w0, path0, events0);
      outcome := Active;
    }
  }

  /** None of the first n answers is a failure. */
  ghost predicate NoneFails(env: nat -> Answer, n: nat) {
    forall k :: 0 <= k < n ==> env(k).code == 0
  }

  /** The first code other than 0 is what a thread returns; without one it returns 0 or
      crashes at a piece that has no countdown. */
  ghost predicate EndsAs(env: nat -> Answer, waits: nat, outcome: Outcome) {
    && (waits > 0 ==> NoneFails(env, waits - 1))
    && (if waits > 0 && env(waits - 1).code != 0 then outcome == Returned(env(waits - 1).code)
        else outcome in {Returned(0), Crashed})
    && (outcome == Crashed ==> waits > 0 && env(waits - 1).decrement == NoKey)
  }

  /** After t answers without a failure. */
  ghost predicate Heard(env: nat -> Answer, t: nat, events: seq<Event>) {
    NoneFails(env, t) && ExitCodes(events) == Codes(env, t)
  }

  lemma HeardMore(env: nat -> Answer, t: nat, before: seq<Event>, events: seq<Event>, outcome: Outcome)
    requires Heard(env, t, before) && ExitCodes(events) == ExitCodes(before) + [env(t).code]
    requires if env(t).code != 0 then outcome == Returned(env(t).code) else outcome in {Active, Crashed}
    requires outcome == Crashed ==> env(t).decrement == NoKey
    ensures ExitCodes(events) == Codes(env, t + 1)
    ensures outcome == Active ==> Heard(env, t + 1, events)
    ensures outcome != Active ==> EndsAs(env, t + 1, outcome)
  {
  }

  lemma NothingHeard(env: nat -> Answer)
    ensures Heard(env, 0, [])
  {
  }

  lemma HeardToTheEnd(env: nat -> Answer, t: nat, events: seq<Event>)
    requires Heard(env, t, events)
    ensures EndsAs(env, t, Returned(0))
  {
  }

  /** The body of the loop: spawn what there is room for, then wait and reap. */
  method NextRound(
      files: seq<Xfer>, mpt: nat, env: nat -> Answer, t: nat, i0: nat, completed0: nat,
      procs0: seq<Handle>, psprocs0: seq<Handle>, psdst0: seq<string>, njoins0: nat,
      ghost w0: Worker, ghost path0: seq<Worker>, ghost events0: seq<Event>)
      returns (outcome: Outcome, i: nat, completed: nat,
        procs: seq<Handle>, psprocs: seq<Handle>, psdst: seq<string>, njoins: nat,
        ghost w: Worker, ghost path: seq<Worker>, ghost events: seq<Event>)
    requires mpt > 0 && completed0 != |files| && IsPath(mpt, files, path0, events0, w0) && Heard(env, t, events0)
    requires Tracks(mpt, files, w0, i0, completed0, procs0, psprocs0, psdst0) && |w0.joins| == njoins0
    ensures IsPath(mpt, files, path, events, w) && WorkerInv(mpt, files, w) && outcome == w.outcome
    ensures ExitCodes(events) == Codes(env, t + 1)
    ensures outcome != Active ==> EndsAs(env, t + 1, outcome) && outcome != Returned(0)
    ensures outcome == Active ==>
      && Tracks(mpt, files, w, i, completed, procs, psprocs, psdst) && |w.joins| == njoins && Heard(env, t + 1, events)
      && completed <= |files| && JoinsIn(procs) <= |procs|
      && 2 * completed + JoinsIn(procs) > 2 * completed0 + JoinsIn(procs0)
  {
    ghost var n;
    i, procs, psprocs, psdst, w, path, events :=
      SpawnTransfers(files, mpt, i0, completed0, procs0, psprocs0, psdst0, w0, path0, events0);
    ghost var before := events;
    outcome, completed, procs, psprocs, psdst, njoins, n, w, path, events :=
      ReapNext(files, mpt, env(t), i, completed0, procs, psprocs, psdst, njoins0, w, path, events);
    HeardMore(env, t, before, events, outcome);
    JoinsInBound(procs);
  }

  /** _multinode_thread_worker. Whatever the environment answers, the loop
      ends, after `waits` answers; its local lists follow the worker steps of the
      system, with the exit codes that were answered; the first code that is not 0
      ends it, with that code; and a return code of 0 means that every transfer and
      every join that it started has been reaped with code 0. */
  method ThreadWorker(files: seq<Xfer>, mpt: nat, env: nat -> Answer)
      returns (outcome: Outcome, ghost waits: nat, ghost w: Worker, ghost path: seq<Worker>, ghost events: seq<Event>)
    requires mpt > 0
    ensures IsPath(mpt, files, path, events, w) && WorkerInv(mpt, files, w)
    ensures outcome == w.outcome && EndsAs(env, waits, outcome) && ExitCodes(events) == Codes(env, waits)
    ensures outcome == Returned(0) ==>
      && w.procs == [] && w.psprocs == []
      && (forall j :: 0 <= j < |files| ==> j in w.reaped)
      && (forall m :: 0 <= m < |w.joins| ==> w.joins[m].status == Exited(0))
  {
    var procs: seq<Handle>, psprocs: seq<Handle>, psdst: seq<string> := [], [], [];
    var completed: nat, i: nat, njoins: nat, t: nat := 0, 0, 0, 0;
    w, path, events := FRESH, [FRESH], [];
    NothingHeard(env);
    while completed != |files|
      invariant Tracks(mpt, files, w, i, completed, procs, psprocs, psdst) && |w.joins| == njoins
      invariant IsPath(mpt, files, path, events, w) && Heard(env, t, events)
      invariant completed <= |files| && JoinsIn(procs) <= |procs|
      decreases 2 * (|files| - completed) - JoinsIn(procs)
    {
      outcome, i, completed, procs, psprocs, psdst, njoins, w, path, events :=
        NextRound(files, mpt, env, t, i, completed, procs, psprocs, psdst, njoins, w, path, events);
      t := t + 1;
      if outcome != Active {
        waits := t;
        return;
      }
    }
    waits := t;
    HeardToTheEnd(env, t, events);
    w, path, events := FinishRound(mpt, files, w, path, events);
    outcome := Returned(0);
  }
}
