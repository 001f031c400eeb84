/** Runs of one worker that succeed, and what they leave (convoy/data.py). */
module TransferSolo {
  import opened Common
  import opened SplitNames
  import opened Packing
  import opened Transfer
  import opened TransferInvariant
  import opened TransferRuns
  import opened TransferSuccess

  // ---- extending a run -------------------------------------------------

  /** Some run from the old content `before` ends in s. */
  ghost predicate Leads(cfg: Config, before: map<string, Bytes>, s: State) {
    exists states: seq<State>, events: seq<Event> ::
      IsRun(cfg, states, events) && states[0].remote == before && states[|events|] == s
  }

  lemma RunOn(cfg: Config, states: seq<State>, events: seq<Event>, e: Event, s': State)
    requires IsRun(cfg, states, events) && Step(cfg, states[|events|], e, s')
    ensures IsRun(cfg, states + [s'], events + [e])
  {
    var ss, es := states + [s'], events + [e];
    forall t | 0 <= t < |es| ensures Step(cfg, ss[t], es[t], ss[t + 1]) {
      if t < |events| {
        assert Step(cfg, states[t], events[t], states[t + 1]);
      }
    }
  }

  /** The states of a run with one worker, which may start all its items at once. */
  ghost predicate Solo(cfg: Config, before: map<string, Bytes>, s: State) {
    && |cfg.files| == 1 && cfg.mpt > |cfg.files[0]|
    && Leads(cfg, before, s) && WorkersInv(cfg, s) && CountsInv(cfg, s)
  }

  lemma SoloStep(cfg: Config, before: map<string, Bytes>, s: State, e: Event, s': State)
    requires Solo(cfg, before, s) && Step(cfg, s, e, s')
    ensures Solo(cfg, before, s')
  {
    var states: seq<State>, events: seq<Event> :|
      IsRun(cfg, states, events) && states[0].remote == before && states[|events|] == s;
    RunOn(cfg, states, events, e, s');
    assert (states + [s'])[0] == states[0] && (states + [s'])[|events + [e]|] == s';
    WorkersStep(cfg, s, e, s');
    CountsStep(cfg, s, e, s');
  }

  lemma SoloStart(cfg: Config, before: map<string, Bytes>) returns (s: State)
    requires |cfg.files| == 1 && cfg.mpt > |cfg.files[0]|
    ensures Solo(cfg, before, s) && s == State(before, cfg.counts, [FRESH])
  {
    s := State(before, cfg.counts, [FRESH]);
    var events: seq<Event> := [];
    assert IsRun(cfg, [s], events) && [s][|events|] == s;
    CoreInit(cfg, s);
  }

  // ---- all transfers ---------------------------------------------------

  function AllRunning(n: nat): (r: seq<Status>)
    ensures |r| == n
  {
    seq(n, (j: int) => Running)
  }

  /** The worker has started its first n items. */
  lemma {:induction false} SpawnAll(cfg: Config, before: map<string, Bytes>, n: nat) returns (s: State)
    requires |cfg.files| == 1 && cfg.mpt > |cfg.files[0]| && n <= |cfg.files[0]|
    ensures Solo(cfg, before, s) && s.remote == before && s.counts == cfg.counts
    ensures var w := s.workers[0]; w.i == n && w.joins == [] && w.outcome == Active && w.xfers == AllRunning(n)
  {
    if n == 0 {
      s := SoloStart(cfg, before);
    } else {
      var r := SpawnAll(cfg, before, n - 1);
      var files, w := cfg.files[0], r.workers[0];
      assert WorkerInv(cfg.mpt, files, w);
      s := WithWorker(r, 0, Spawned(files, w));
      SoloStep(cfg, before, r, Spawn(0), s);
    }
  }

  /** What the destination holds when the items have been stored in order. */
  function StoredAll(files: seq<Xfer>, before: map<string, Bytes>): map<string, Bytes> {
    if files == [] then before
    else
      var x := files[|files| - 1];
      StoredAll(files[..|files| - 1], before)[x.name := Received(x)]
  }

  /** The first j transfers have exited with code 0. */
  function Exits(n: nat, j: nat): (r: seq<Status>)
    ensures |r| == n
  {
    seq(n, (k: int) => if k < j then Exited(0) else Running)
  }

  lemma ExitCopy(cfg: Config, before: map<string, Bytes>, r: State, j: nat) returns (s: State)
    requires Solo(cfg, before, r) && j < |cfg.files[0]| && j < |r.workers[0].xfers| && r.workers[0].xfers[j] == Running
    ensures Solo(cfg, before, s) && s.counts == r.counts
    ensures s.remote == r.remote[cfg.files[0][j].name := Received(cfg.files[0][j])]
    ensures s.workers[0] == WithExit(r.workers[0], Copy(j), 0)
  {
    var x := cfg.files[0][j];
    s := WithWorker(r, 0, WithExit(r.workers[0], Copy(j), 0)).(remote := r.remote[x.name := Received(x)]);
    assert ExitStep(cfg, r, 0, Copy(j), 0, s);
    SoloStep(cfg, before, r, Exit(0, Copy(j), 0), s);
  }

  lemma StoredSnoc(files: seq<Xfer>, before: map<string, Bytes>, j: nat)
    requires j < |files|
    ensures StoredAll(files[..j + 1], before) == StoredAll(files[..j], before)[files[j].name := Received(files[j])]
  {
    assert files[..j + 1][..j] == files[..j];
  }

  lemma {:induction false} ExitCopies(cfg: Config, before: map<string, Bytes>, j: nat) returns (s: State)
    requires |cfg.files| == 1 && cfg.mpt > |cfg.files[0]| && j <= |cfg.files[0]|
    ensures Solo(cfg, before, s) && s.counts == cfg.counts && s.remote == StoredAll(cfg.files[0][..j], before)
    ensures var w := s.workers[0];
      w.i == |cfg.files[0]| && w.joins == [] && w.outcome == Active && w.xfers == Exits(w.i, j)
  {
    if j == 0 {
      s := SpawnAll(cfg, before, |cfg.files[0]|);
    } else {
      var r := ExitCopies(cfg, before, j - 1);
      s := ExitCopy(cfg, before, r, j - 1);
      StoredSnoc(cfg.files[0], before, j - 1);
    }
  }

  // ---- all pieces ------------------------------------------------------

  /** All transfers have exited with code 0, no join has exited. */
  ghost predicate AllStored(cfg: Config, before: map<string, Bytes>, s: State) {
    && Solo(cfg, before, s)
    && var w := s.workers[0];
    && w.i == |cfg.files[0]| && w.outcome == Active && w.xfers == Exits(w.i, w.i)
    && forall m :: 0 <= m < |w.joins| ==> w.joins[m].status == Running
  }

  ghost predicate HasJoin(w: Worker, d: string) {
    exists m :: 0 <= m < |w.joins| && w.joins[m].dst == d
  }

  /** A countdown that is used up has started a join. */
  ghost predicate Started(s: State, d: string)
    requires s.workers != []
  {
    d in s.counts && (s.counts[d] > 0 || HasJoin(s.workers[0], d))
  }

  /** Joins are for different destinations, the countdowns of which are used up. */
  predicate JoinsTight(s: State)
    requires s.workers != []
  {
    var joins := s.workers[0].joins;
    && (forall m :: 0 <= m < |joins| ==> joins[m].dst in s.counts && s.counts[joins[m].dst] <= 0)
    && (forall l, m :: 0 <= l < m < |joins| ==> joins[l].dst != joins[m].dst)
  }

  /** The first outstanding piece has exited with code 0 and has a countdown. */
  predicate PieceReady(cfg: Config, s: State)
    requires |s.workers| == |cfg.files| == 1
  {
    var w := s.workers[0];
    && w.psprocs != [] && |w.psdst| == |w.psprocs| && w.psprocs[0].Copy? && HasHandle(w, w.psprocs[0])
    && StatusOf(w, w.psprocs[0]) == Exited(0) && w.psdst[0] in s.counts
    && w.outcome == Active && AtWait(cfg.mpt, cfg.files[0], w)
  }

  lemma PieceIsReady(cfg: Config, before: map<string, Bytes>, s: State)
    requires AllStored(cfg, before, s) && s.workers[0].psprocs != [] && AllParse(cfg)
    ensures PieceReady(cfg, s)
  {
    var files, w := cfg.files[0], s.workers[0];
    assert WorkerInv(cfg.mpt, files, w) && PieceHandleOk(files, w, 0);
    assert !Unparsed(cfg, 0, w.psprocs[0].j);
  }

  /** What reaping the first piece does. */
  ghost predicate FirstReaped(s: State, s': State)
    requires |s.workers| == |s'.workers| == 1
  {
    var w, v := s.workers[0], s'.workers[0];
    && w.psdst != [] && w.psdst[0] in s.counts
    && s'.remote == s.remote && s'.counts == s.counts[w.psdst[0] := s.counts[w.psdst[0]] - 1]
    && v.i == w.i && v.outcome == w.outcome && v.xfers == w.xfers && |v.psprocs| < |w.psprocs|
    && v.joins == w.joins + (if s.counts[w.psdst[0]] == 1 then [Joining(w.psdst[0], Running)] else [])
  }

  lemma ReapFirst(cfg: Config, s: State) returns (s': State)
    requires |s.workers| == |cfg.files| == 1 && PieceReady(cfg, s)
    ensures Step(cfg, s, ReapPiece(0, 0), s') && |s'.workers| == 1 && FirstReaped(s, s')
  {
    var w := s.workers[0];
    var dst := w.psdst[0];
    var left := s.counts[dst] - 1;
    var v := PieceReaped(w, 0, if left == 0 then Last else Remaining);
    s' := State(s.remote, s.counts[dst := left], [v]);
    assert s' == WithWorker(s, 0, v).(counts := s.counts[dst := left]);
  }

  lemma StoredAfter(cfg: Config, before: map<string, Bytes>, s: State, s': State)
    requires AllStored(cfg, before, s) && Solo(cfg, before, s') && FirstReaped(s, s')
    ensures AllStored(cfg, before, s')
  {
    var w, v := s.workers[0], s'.workers[0];
    assert v.xfers == Exits(v.i, v.i);
  }

  /** One piece is reaped. */
  lemma ReapOne(cfg: Config, before: map<string, Bytes>, s: State) returns (s': State)
    requires AllStored(cfg, before, s) && s.workers[0].psprocs != [] && AllParse(cfg) && JoinsTight(s)
    ensures AllStored(cfg, before, s') && s'.remote == s.remote && JoinsTight(s')
    ensures |s'.workers[0].psprocs| < |s.workers[0].psprocs|
    ensures forall d :: Started(s, d) ==> Started(s', d)
  {
    PieceIsReady(cfg, before, s);
    s' := ReapFirst(cfg, s);
    SoloStep(cfg, before, s, ReapPiece(0, 0), s');
    StoredAfter(cfg, before, s, s');
    ReapKeepsTight(s, s');
    forall d | Started(s, d) ensures Started(s', d) {
      ReapStarts(s, s', d);
    }
  }

  lemma ReapKeepsTight(s: State, s': State)
    requires |s.workers| == |s'.workers| == 1 && FirstReaped(s, s') && JoinsTight(s)
    ensures JoinsTight(s')
  {
    var w, v, dst := s.workers[0], s'.workers[0], s.workers[0].psdst[0];
    forall m | 0 <= m < |w.joins|
      ensures v.joins[m].dst in s'.counts && s'.counts[v.joins[m].dst] <= 0
      ensures s.counts[dst] == 1 ==> v.joins[m].dst != dst
    {
      assert v.joins[m] == w.joins[m];
    }
    assert forall m :: |w.joins| <= m < |v.joins| ==> v.joins[m].dst == dst && s.counts[dst] == 1;
    forall l, m | 0 <= l < m < |v.joins| ensures v.joins[l].dst != v.joins[m].dst {
      assert v.joins[l] == w.joins[l];
    }
  }

  lemma ReapStarts(s: State, s': State, d: string)
    requires |s.workers| == |s'.workers| == 1 && Started(s, d) && FirstReaped(s, s')
    ensures Started(s', d)
  {
    var w, v, dst := s.workers[0], s'.workers[0], s.workers[0].psdst[0];
    if dst == d && s.counts[d] == 1 {
      assert v.joins[|w.joins|].dst == d;
    } else if HasJoin(w, d) {
      var m :| 0 <= m < |w.joins| && w.joins[m].dst == d;
      assert v.joins[m].dst == d;
    }
  }

  lemma {:induction false} ReapPieces(cfg: Config, before: map<string, Bytes>, s: State) returns (s': State)
    requires AllStored(cfg, before, s) && AllParse(cfg) && JoinsTight(s)
    ensures AllStored(cfg, before, s') && s'.remote == s.remote && JoinsTight(s') && s'.workers[0].psprocs == []
    ensures forall d :: Started(s, d) ==> Started(s', d)
    decreases |s.workers[0].psprocs|
  {
    s' := s;
    if s.workers[0].psprocs != [] {
      s' := ReapOne(cfg, before, s);
      s' := ReapPieces(cfg, before, s');
    }
  }

  lemma PieceIsReaped(mpt: nat, files: seq<Xfer>, w: Worker, j: nat)
    requires WorkerInv(mpt, files, w) && w.outcome == Active && w.psprocs == [] && j < w.i && IsPiece(files[j])
    ensures j in w.reaped
  {
    forall k | 0 <= k < |w.procs| ensures w.procs[k] != Copy(j) {
      assert PlainHandleOk(files, w, k);
    }
    assert Copy(j) !in w.procs && Copy(j) !in w.psprocs;
  }

  lemma PieceSetDone(cfg: Config, before: map<string, Bytes>, s: State, d: string)
    requires AllStored(cfg, before, s) && s.workers[0].psprocs == []
    ensures PieceSet(cfg, d) <= Done(s)
  {
    forall x | x in PieceSet(cfg, d) ensures x in Done(s) {
      assert x.0 == 0 && WorkerInv(cfg.mpt, cfg.files[0], s.workers[0]);
      PieceIsReaped(cfg.mpt, cfg.files[0], s.workers[0], x.1);
    }
  }

  /** With every piece reaped a countdown has gone down by all of its pieces. */
  lemma PiecesReaped(cfg: Config, before: map<string, Bytes>, s: State, d: string)
    requires AllStored(cfg, before, s) && s.workers[0].psprocs == [] && d in s.counts && d in cfg.counts
    ensures s.counts[d] == cfg.counts[d] - |PieceSet(cfg, d)|
  {
    PieceSetDone(cfg, before, s, d);
    assert Done(s) * PieceSet(cfg, d) == PieceSet(cfg, d);
    assert CountMatches(cfg, s.counts, Done(s), d);
  }

  // ---- all joins -------------------------------------------------------

  /** All pieces have been reaped; every join below m has exited, except `keep`. */
  ghost predicate JoinsExiting(cfg: Config, before: map<string, Bytes>, s: State, m: nat, keep: int) {
    && Solo(cfg, before, s)
    && var w := s.workers[0];
    && w.i == |cfg.files[0]| && w.outcome == Active && w.psprocs == [] && w.xfers == Exits(w.i, w.i)
    && m <= |w.joins|
    && forall k :: 0 <= k < |w.joins| ==> w.joins[k].status == if k < m && k != keep then Exited(0) else Running
  }

  /** A join exits, after all others but `keep` or last of all. */
  lemma ExitJoin(cfg: Config, before: map<string, Bytes>, s: State, m: nat) returns (s': State)
    requires Solo(cfg, before, s) && m < |s.workers[0].joins| && s.workers[0].joins[m].status == Running
    ensures Solo(cfg, before, s') && s'.remote == JoinFiles(s.remote, s.workers[0].joins[m].dst)
    ensures s'.workers[0] == WithExit(s.workers[0], JoinProc(m), 0)
  {
    var w := s.workers[0];
    s' := WithWorker(s, 0, WithExit(w, JoinProc(m), 0)).(remote := JoinFiles(s.remote, w.joins[m].dst));
    assert ExitStep(cfg, s, 0, JoinProc(m), 0, s');
    SoloStep(cfg, before, s, Exit(0, JoinProc(m), 0), s');
  }

  predicate SameJoins(w: Worker, v: Worker) {
    |v.joins| == |w.joins| && forall k :: 0 <= k < |w.joins| ==> v.joins[k].dst == w.joins[k].dst
  }

  /** No join of w but `keep` reaches x. */
  predicate OutOfJoins(w: Worker, keep: int, x: string) {
    forall k :: 0 <= k < |w.joins| && k != keep ==> w.joins[k].dst != x && !GlobMatch(w.joins[k].dst, x)
  }

  lemma {:induction false} ExitOthers(cfg: Config, before: map<string, Bytes>, s: State, m: nat, keep: int)
      returns (s': State)
    requires JoinsExiting(cfg, before, s, m, keep)
    ensures JoinsExiting(cfg, before, s', |s.workers[0].joins|, keep) && SameJoins(s.workers[0], s'.workers[0])
    ensures forall x :: OutOfJoins(s.workers[0], keep, x) ==> SameAt(s.remote, s'.remote, x)
    decreases |s.workers[0].joins| - m
  {
    s' := s;
    if m < |s.workers[0].joins| {
      if m != keep {
        s' := ExitJoin(cfg, before, s, m);
      }
      var r := s';
      s' := ExitOthers(cfg, before, r, m + 1, keep);
      forall x | OutOfJoins(s.workers[0], keep, x) ensures SameAt(s.remote, s'.remote, x) {
        assert OutOfJoins(r.workers[0], keep, x);
        assert SameAt(s.remote, r.remote, x);
      }
    }
  }

  // ---- the end ---------------------------------------------------------

  ghost predicate AllExited(cfg: Config, before: map<string, Bytes>, s: State) {
    && Solo(cfg, before, s)
    && var w := s.workers[0];
    && w.i == |cfg.files[0]| && w.outcome == Active && w.psprocs == [] && w.xfers == Exits(w.i, w.i)
    && forall k :: 0 <= k < |w.joins| ==> w.joins[k].status == Exited(0)
  }

  lemma {:induction false} ReapAll(cfg: Config, before: map<string, Bytes>, s: State) returns (s': State)
    requires AllExited(cfg, before, s)
    ensures Leads(cfg, before, s') && AllSucceeded(s') && s'.remote == s.remote
    decreases |s.workers[0].procs|
  {
    var files, w := cfg.files[0], s.workers[0];
    assert WorkerInv(cfg.mpt, files, w);
    if w.procs == [] {
      s' := WithWorker(s, 0, w.(outcome := Returned(0)));
      SoloStep(cfg, before, s, Finish(0), s');
    } else {
      assert PlainHandleOk(files, w, 0);
      s' := WithWorker(s, 0, PlainReaped(w, 0));
      SoloStep(cfg, before, s, ReapPlain(0, 0), s');
      s' := ReapAll(cfg, before, s');
    }
  }

  /** From all transfers done to success, with the join `keep`, if there is one,
      as the last one to exit: r is where it exits. */
  lemma FinishWith(cfg: Config, before: map<string, Bytes>, s: State, keep: int) returns (s': State, r: State)
    requires AllStored(cfg, before, s) && s.workers[0].psprocs == []
    ensures Leads(cfg, before, s') && AllSucceeded(s')
    ensures s'.remote ==
      if 0 <= keep < |s.workers[0].joins| then JoinFiles(r.remote, s.workers[0].joins[keep].dst) else r.remote
    ensures forall x :: OutOfJoins(s.workers[0], keep, x) ==> SameAt(s.remote, r.remote, x)
  {
    r := ExitOthers(cfg, before, s, 0, keep);
    s' := r;
    if 0 <= keep < |s.workers[0].joins| {
      s' := ExitJoin(cfg, before, r, keep);
    }
    s' := ReapAll(cfg, before, s');
  }

  lemma AllCopied(cfg: Config, before: map<string, Bytes>) returns (s: State)
    requires |cfg.files| == 1 && cfg.mpt > |cfg.files[0]|
    ensures AllStored(cfg, before, s) && s.remote == StoredAll(cfg.files[0], before)
    ensures s.counts == cfg.counts && s.workers[0].joins == []
  {
    var files := cfg.files[0];
    s := ExitCopies(cfg, before, |files|);
    assert files[..|files|] == files;
  }

  /** d has at least as many pieces as its countdown says. */
  ghost predicate CountsDown(cfg: Config, d: string) {
    d in cfg.counts && 0 < cfg.counts[d] <= |PieceSet(cfg, d)|
  }

  /** No countdown that is used up, except that of d, has a join that reaches x. */
  ghost predicate Unreached(cfg: Config, d: Option<string>, x: string) {
    forall c :: CountsDown(cfg, c) && d != Some(c) ==> x != c && !GlobMatch(c, x)
  }

  lemma JoinsCountDown(cfg: Config, before: map<string, Bytes>, s: State)
    requires AllStored(cfg, before, s) && s.workers[0].psprocs == [] && JoinsTight(s)
    requires forall d :: d in cfg.counts ==> cfg.counts[d] > 0
    ensures forall m :: 0 <= m < |s.workers[0].joins| ==> CountsDown(cfg, s.workers[0].joins[m].dst)
  {
    forall m | 0 <= m < |s.workers[0].joins| ensures CountsDown(cfg, s.workers[0].joins[m].dst) {
      PiecesReaped(cfg, before, s, s.workers[0].joins[m].dst);
    }
  }

  /** All pieces have been reaped: the joins are those of the countdowns that are used
      up. */
  lemma AllReaped(cfg: Config, before: map<string, Bytes>) returns (s: State)
    requires |cfg.files| == 1 && cfg.mpt > |cfg.files[0]| && AllParse(cfg)
    requires forall d :: d in cfg.counts ==> cfg.counts[d] > 0
    ensures AllStored(cfg, before, s) && s.workers[0].psprocs == [] && JoinsTight(s)
    ensures s.remote == StoredAll(cfg.files[0], before)
    ensures forall m :: 0 <= m < |s.workers[0].joins| ==> CountsDown(cfg, s.workers[0].joins[m].dst)
    ensures forall d :: CountsDown(cfg, d) ==> HasJoin(s.workers[0], d)
  {
    var copied := AllCopied(cfg, before);
    s := ReapPieces(cfg, before, copied);
    JoinsCountDown(cfg, before, s);
    forall d | CountsDown(cfg, d) ensures HasJoin(s.workers[0], d) {
      assert Started(copied, d) && Started(s, d);
      PiecesReaped(cfg, before, s, d);
    }
  }

  /** If every piece parses, a run of one worker succeeds, and what no join reaches
      stays what the transfers have made it. */
  lemma SomeRun(cfg: Config, before: map<string, Bytes>) returns (s: State)
    requires |cfg.files| == 1 && cfg.mpt > |cfg.files[0]| && AllParse(cfg)
    requires forall d :: d in cfg.counts ==> cfg.counts[d] > 0
    ensures Leads(cfg, before, s) && AllSucceeded(s)
    ensures forall x :: Unreached(cfg, None, x) ==> SameAt(StoredAll(cfg.files[0], before), s.remote, x)
  {
    var reaped := AllReaped(cfg, before);
    var r;
    s, r := FinishWith(cfg, before, reaped, -1);
    forall x | Unreached(cfg, None, x) ensures SameAt(StoredAll(cfg.files[0], before), s.remote, x) {
      assert OutOfJoins(reaped.workers[0], -1, x);
    }
  }

  /** It can do so with the join of d as the last process to exit. */
  lemma RunWithLastJoin(cfg: Config, before: map<string, Bytes>, d: string)
      returns (s: State, remote: map<string, Bytes>)
    requires |cfg.files| == 1 && cfg.mpt > |cfg.files[0]| && AllParse(cfg)
    requires (forall c :: c in cfg.counts ==> cfg.counts[c] > 0) && CountsDown(cfg, d)
    ensures Leads(cfg, before, s) && AllSucceeded(s) && s.remote == JoinFiles(remote, d)
    ensures forall x :: Unreached(cfg, Some(d), x) ==> SameAt(StoredAll(cfg.files[0], before), remote, x)
  {
    var reaped := AllReaped(cfg, before);
    assert HasJoin(reaped.workers[0], d);
    var joins := reaped.workers[0].joins;
    var keep :| 0 <= keep < |joins| && joins[keep].dst == d;
    var r;
    s, r := FinishWith(cfg, before, reaped, keep);
    remote := r.remote;
    forall x | Unreached(cfg, Some(d), x) ensures SameAt(StoredAll(cfg.files[0], before), remote, x) {
      OnlyKept(reaped.workers[0], keep);
      assert OutOfJoins(reaped.workers[0], keep, x);
    }
  }

  lemma OnlyKept(w: Worker, keep: nat)
    requires keep < |w.joins| && forall l, m :: 0 <= l < m < |w.joins| ==> w.joins[l].dst != w.joins[m].dst
    ensures forall k :: 0 <= k < |w.joins| && k != keep ==> w.joins[k].dst != w.joins[keep].dst
  {
  }
}
