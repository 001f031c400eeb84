/** When the transfer as a whole succeeds (convoy/data.py:827-876). */
module TransferSuccess {
  import opened Common
  import opened SplitNames
  import opened Packing
  import opened Transfer
  import opened TransferInvariant
  import opened TransferRuns
  import opened EndToEnd

  /** One of the processes of w has exited with rc. */
  ghost predicate HasExit(w: Worker, rc: int) {
    (exists j :: 0 <= j < |w.xfers| && w.xfers[j] == Exited(rc)) ||
    (exists m :: 0 <= m < |w.joins| && w.joins[m].status == Exited(rc))
  }

  /** An item whose parsed destination has no countdown. */
  predicate Unparsed(cfg: Config, k: int, j: int) {
    IsSlot(cfg.files, k, j) && IsPiece(cfg.files[k][j]) && TargetOf(cfg.files[k][j].name) !in cfg.counts
  }

  /** Why a thread has ended other than by success. */
  ghost predicate Explained(cfg: Config, k: int, w: Worker) {
    match w.outcome
    case Active => true
    case Returned(rc) => rc == 0 || HasExit(w, rc)
    case Crashed => exists j :: Unparsed(cfg, k, j)
  }

  lemma ExitsStay(w: Worker, h: Handle, code: int, rc: int)
    requires HasHandle(w, h) && StatusOf(w, h) == Running && HasExit(w, rc)
    ensures HasExit(WithExit(w, h, code), rc)
  {
    var v := WithExit(w, h, code);
    if j :| 0 <= j < |w.xfers| && w.xfers[j] == Exited(rc) {
      assert v.xfers[j] == Exited(rc);
    } else {
      var m :| 0 <= m < |w.joins| && w.joins[m].status == Exited(rc);
      assert v.joins[m].status == Exited(rc);
    }
  }

  lemma StatusIsExit(w: Worker, h: Handle, rc: int)
    requires HasHandle(w, h) && StatusOf(w, h) == Exited(rc)
    ensures HasExit(w, rc)
  {
    match h
    case Copy(j) => assert w.xfers[j] == Exited(rc);
    case JoinProc(m) => assert w.joins[m].status == Exited(rc);
  }

  lemma ReapPieceExplained(cfg: Config, s: State, k: nat, n: nat, s': State)
    requires k < |s.workers| == |cfg.files| && ReapPieceStep(cfg, s, k, n, s')
    requires WorkersInv(cfg, s) && s.counts.Keys == cfg.counts.Keys
    ensures |s'.workers| == |s.workers| && Explained(cfg, k, s'.workers[k])
  {
    var w := s.workers[k];
    var st := StatusOf(w, w.psprocs[n]);
    if st.code != 0 {
      StatusIsExit(w, w.psprocs[n], st.code);
      assert HasExit(s'.workers[k], st.code) by {
        assert s'.workers[k].xfers == w.xfers && s'.workers[k].joins == w.joins;
      }
    } else if w.psdst[n] !in s.counts {
      OutstandingPiece(cfg, s, k, n);
      assert Unparsed(cfg, k, w.psprocs[n].j);
    }
  }

  lemma ReapPlainExplained(cfg: Config, s: State, k: nat, n: nat, s': State)
    requires k < |s.workers| == |cfg.files| && ReapPlainStep(cfg, s, k, n, s')
    ensures |s'.workers| == |s.workers| && Explained(cfg, k, s'.workers[k])
  {
    var w := s.workers[k];
    var st := StatusOf(w, w.procs[n]);
    if st.code != 0 {
      StatusIsExit(w, w.procs[n], st.code);
      assert HasExit(s'.workers[k], st.code) by {
        assert s'.workers[k].xfers == w.xfers && s'.workers[k].joins == w.joins;
      }
    }
  }

  lemma ExplainedStep(cfg: Config, s: State, e: Event, s': State)
    requires Step(cfg, s, e, s') && WorkersInv(cfg, s) && s.counts.Keys == cfg.counts.Keys
    requires Explained(cfg, e.w, s.workers[e.w])
    ensures |s'.workers| == |s.workers| && Explained(cfg, e.w, s'.workers[e.w])
  {
    match e
    case Exit(k, h, code) =>
      var w := s.workers[k];
      if w.outcome.Returned? && w.outcome.rc != 0 {
        ExitsStay(w, h, code, w.outcome.rc);
      }
    case ReapPiece(k, n) => ReapPieceExplained(cfg, s, k, n, s');
    case ReapPlain(k, n) => ReapPlainExplained(cfg, s, k, n, s');
    case _ =>
  }

  lemma ExplainedNext(cfg: Config, s: State, e: Event, s': State, k: nat)
    requires Step(cfg, s, e, s') && WorkersInv(cfg, s) && s.counts.Keys == cfg.counts.Keys
    requires k < |s.workers| && Explained(cfg, k, s.workers[k])
    ensures k < |s'.workers| && Explained(cfg, k, s'.workers[k])
  {
    WorkersStep(cfg, s, e, s');
    if e.w == k {
      ExplainedStep(cfg, s, e, s');
    }
  }

  lemma ReachableFacts(cfg: Config, states: seq<State>, events: seq<Event>, t: nat)
    requires IsRun(cfg, states, events) && t < |states|
    ensures WorkersInv(cfg, states[t]) && states[t].counts.Keys == cfg.counts.Keys
    ensures t > 0 ==> Step(cfg, states[t - 1], events[t - 1], states[t])
  {
    CoreAlongRun(cfg, states, events, t);
  }

  lemma {:induction false} ExplainedAlongRun(cfg: Config, states: seq<State>, events: seq<Event>, t: nat, k: nat)
    requires IsRun(cfg, states, events) && t < |states| && k < |cfg.files|
    ensures k < |states[t].workers| && Explained(cfg, k, states[t].workers[k])
  {
    ReachableFacts(cfg, states, events, t);
    if t > 0 {
      ExplainedAlongRun(cfg, states, events, t - 1, k);
      ReachableFacts(cfg, states, events, t - 1);
      ExplainedNext(cfg, states[t - 1], events[t - 1], states[t], k);
    }
  }

  /** No process of any thread has exited with another code than 0. */
  ghost predicate NoneFailed(s: State) {
    forall k, rc :: 0 <= k < |s.workers| && HasExit(s.workers[k], rc) ==> rc == 0
  }

  /** The parser finds a countdown for every piece. */
  predicate AllParse(cfg: Config) {
    forall k, j | 0 <= k < |cfg.files| && 0 <= j < |cfg.files[k]| :: !Unparsed(cfg, k, j)
  }

  /** A run that cannot go on, with no failed process and no destination that
      reads like a piece, has succeeded: no thread is stuck, and none has ended
      for any other reason. */
  lemma FailureFreeRunSucceeds(cfg: Config, states: seq<State>, events: seq<Event>)
    requires IsRun(cfg, states, events) && cfg.mpt > 0 && AllParse(cfg)
    requires !Enabled(cfg, states[|events|]) && NoneFailed(states[|events|])
    ensures AllSucceeded(states[|events|])
  {
    var s := states[|events|];
    CoreAlongRun(cfg, states, events, |events|);
    forall k | 0 <= k < |s.workers| ensures s.workers[k].outcome == Returned(0) {
      if s.workers[k].outcome == Active {
        ActiveMeansEnabled(cfg, states, events, |events|, k);
      }
      ExplainedAlongRun(cfg, states, events, |events|, k);
    }
  }

  // ---- the whole pipeline ----------------------------------------------------

  lemma BuiltPieceParses(entries: seq<Entry>, split: Option<nat>, m: nat, mpt: nat, k: nat, j: nat)
    requires m > 0 && SourceOk(entries, split)
    requires forall i :: IsSplitEntry(entries, split, i) ==> !LooksLikePiece(entries[i].dst)
    ensures !Unparsed(BuildConfig(entries, split, m, mpt), k, j)
  {
    var cfg := BuildConfig(entries, split, m, mpt);
    if IsSlot(cfg.files, k, j) && IsPiece(cfg.files[k][j]) {
      var n, i, p := EntryOfSlot(entries, split, m, mpt, k, j);
      ItemName(entries[i], split, p);
      assert IsSplitEntry(entries, split, i);
      TargetOfPiece(entries[i].dst, p, PadWidth(NumSplits(entries[i], split)));
      PiecesOfEntries(entries, split);
      assert entries[i].dst in PiecesOf(entries, split);
    }
  }

  /** From the source files to the destination: a run that cannot go on, in
      which no process failed, has succeeded, provided that no split destination
      reads like a piece. If no file goes under the pattern of a split one, it has
      delivered every file intact whose split is block aligned and clean. */
  lemma FailureFreeRunDelivers(
      entries: seq<Entry>, split: Option<nat>, m: nat, mpt: nat, states: seq<State>, events: seq<Event>)
    requires m > 0 && mpt > 0 && SourceOk(entries, split)
    requires forall i :: IsSplitEntry(entries, split, i) ==> !LooksLikePiece(entries[i].dst)
    requires IsRun(BuildConfig(entries, split, m, mpt), states, events)
    requires !Enabled(BuildConfig(entries, split, m, mpt), states[|events|]) && NoneFailed(states[|events|])
    ensures AllSucceeded(states[|events|])
    ensures NoSiblings(entries, split) ==> forall i :: 0 <= i < |entries| ==>
      Delivered(entries[i], split, states[0].remote, states[|events|].remote)
  {
    var cfg := BuildConfig(entries, split, m, mpt);
    forall k, j | 0 <= k < |cfg.files| && 0 <= j < |cfg.files[k]| ensures !Unparsed(cfg, k, j) {
      BuiltPieceParses(entries, split, m, mpt, k, j);
    }
    FailureFreeRunSucceeds(cfg, states, events);
    if NoSiblings(entries, split) {
      TransferEndToEnd(entries, split, m, mpt, states, events);
    }
  }
}
