/** The transfer workers as a step system (convoy/data.py): one thread per
    node, each with its child processes, over one shared destination and one
    shared countdown. Every interleaving of the threads and of the exits of
    their child processes is a run of this system. */
module Transfer {
  import opened Common
  import opened Strings
  import opened SplitNames
  import opened Ranges
  import opened Packing

  datatype Status = Running | Exited(code: int)

  /** A process handle: the transfer of the worker's item j, or its m-th join. */
  datatype Handle = Copy(j: nat) | JoinProc(m: nat)

  datatype Joining = Joining(dst: string, status: Status)

  datatype Outcome = Active | Returned(rc: int) | Crashed

  /** A worker thread. `procs`, `psprocs`, `psdst`, `completed` and `i` are its
      local variables; `xfers` and `joins` are the processes it has started.
      `reaped` records the items whose process it has reaped with code 0. */
  datatype Worker = Worker(
    i: nat, completed: nat,
    procs: seq<Handle>, psprocs: seq<Handle>, psdst: seq<string>,
    xfers: seq<Status>, joins: seq<Joining>,
    reaped: set<nat>, outcome: Outcome)

  datatype Config = Config(mpt: nat, files: seq<seq<Xfer>>, counts: map<string, int>)

  datatype State = State(remote: map<string, Bytes>, counts: map<string, int>, workers: seq<Worker>)

  predicate IsPiece(x: Xfer) {
    x.range.Some?
  }

  /** The bytes that arrive under the item's name. */
  function Received(x: Xfer): Bytes {
    match x.range
    case None => x.file
    case Some(r) => if RangeOk(x.file, r) then Sent(x.file, r) else []
  }

  function Remove<T>(s: seq<T>, n: nat): seq<T>
    requires n < |s|
  {
    s[..n] + s[n + 1..]
  }

  // ---- one worker ------------------------------------------------------

  function Outstanding(w: Worker): nat {
    |w.procs| + |w.psprocs|
  }

  predicate InLoop(files: seq<Xfer>, w: Worker) {
    w.outcome == Active && w.completed != |files|
  }

  predicate CanSpawn(mpt: nat, files: seq<Xfer>, w: Worker) {
    InLoop(files, w) && Outstanding(w) < mpt && w.i < |files|
  }

  predicate AtWait(mpt: nat, files: seq<Xfer>, w: Worker) {
    InLoop(files, w) && !(Outstanding(w) < mpt && w.i < |files|)
  }

  /** _spawn_next_transfer */
  function Spawned(files: seq<Xfer>, w: Worker): Worker
    requires w.i < |files|
  {
    var x := files[w.i];
    var w1 := w.(i := w.i + 1, xfers := w.xfers + [Running]);
    if IsPiece(x)
    then w1.(psprocs := w.psprocs + [Copy(w.i)], psdst := w.psdst + [TargetOf(x.name)])
    else w1.(procs := w.procs + [Copy(w.i)])
  }

  predicate HasHandle(w: Worker, h: Handle) {
    match h
    case Copy(j) => j < |w.xfers|
    case JoinProc(m) => m < |w.joins|
  }

  function StatusOf(w: Worker, h: Handle): Status
    requires HasHandle(w, h)
  {
    match h
    case Copy(j) => w.xfers[j]
    case JoinProc(m) => w.joins[m].status
  }

  /** A child process exits. */
  function WithExit(w: Worker, h: Handle, code: int): Worker
    requires HasHandle(w, h)
  {
    match h
    case Copy(j) => w.(xfers := w.xfers[j := Exited(code)])
    case JoinProc(m) => w.(joins := w.joins[m := w.joins[m].(status := Exited(code))])
  }

  /** What the locked decrement of the countdown found. */
  datatype Decrement = NoKey | Remaining | Last

  /** The branch `plist == psprocs` for a process that exited with code 0. */
  function PieceReaped(w: Worker, n: nat, d: Decrement): Worker
    requires n < |w.psprocs| == |w.psdst| && w.psprocs[n].Copy?
  {
    var dst := w.psdst[n];
    var w1 := w.(psprocs := Remove(w.psprocs, n), psdst := Remove(w.psdst, n));
    match d
    case NoKey => w1.(outcome := Crashed)
    case Remaining => w1.(reaped := w.reaped + {w.psprocs[n].j}, completed := w.completed + 1)
    case Last => w1.(reaped := w.reaped + {w.psprocs[n].j},
                     joins := w.joins + [Joining(dst, Running)],
                     procs := w.procs + [JoinProc(|w.joins|)])
  }

  /** The other branch: a whole file or a join is complete. */
  function PlainReaped(w: Worker, n: nat): Worker
    requires n < |w.procs|
  {
    var reaped := if w.procs[n].Copy? then w.reaped + {w.procs[n].j} else w.reaped;
    w.(procs := Remove(w.procs, n), reaped := reaped, completed := w.completed + 1)
  }

  // ---- the destination -------------------------------------------------

  function CatAll(remote: map<string, Bytes>, names: seq<string>): Bytes {
    if names == [] then []
    else (if names[0] in remote then remote[names[0]] else []) + CatAll(remote, names[1..])
  }

  ghost function Matches(remote: map<string, Bytes>, dst: string): set<string> {
    set x | x in remote && GlobMatch(dst, x)
  }

  /** `cat dst.* >> dst` followed by `rm -f dst.*` */
  ghost function JoinFiles(remote: map<string, Bytes>, dst: string): map<string, Bytes> {
    var names := Matches(remote, dst);
    var head := if dst in remote then remote[dst] else [];
    (remote - names)[dst := head + CatAll(remote, Sorted(names))]
  }

  predicate SameAt(a: map<string, Bytes>, b: map<string, Bytes>, x: string) {
    (x in a <==> x in b) && (x in a && x in b ==> a[x] == b[x])
  }

  predicate Holds(remote: map<string, Bytes>, name: string, content: Bytes) {
    name in remote && remote[name] == content
  }

  /** What a transfer does to the destination by the time it has exited. A
      failed one may have left anything under its own name. */
  ghost predicate CopyEffect(remote: map<string, Bytes>, x: Xfer, code: int, remote': map<string, Bytes>) {
    if code == 0 then remote' == remote[x.name := Received(x)]
    else forall y :: y != x.name ==> SameAt(remote, remote', y)
  }

  /** What a join does. A failed one may have left anything under `dst` and may
      have removed some of the pieces. */
  ghost predicate JoinEffect(remote: map<string, Bytes>, dst: string, code: int, remote': map<string, Bytes>) {
    if code == 0 then remote' == JoinFiles(remote, dst)
    else forall y :: y != dst ==>
      SameAt(remote, remote', y) || (y in remote && y !in remote' && GlobMatch(dst, y))
  }

  // ---- steps -----------------------------------------------------------

  datatype Event =
    | Spawn(w: nat)
    | Exit(w: nat, h: Handle, code: int)
    | ReapPiece(w: nat, n: nat)
    | ReapPlain(w: nat, n: nat)
    | Finish(w: nat)

  function WithWorker(s: State, k: nat, w: Worker): State
    requires k < |s.workers|
  {
    s.(workers := s.workers[k := w])
  }

  ghost predicate ExitStep(cfg: Config, s: State, k: nat, h: Handle, code: int, s': State)
    requires k < |s.workers| == |cfg.files|
  {
    var w := s.workers[k];
    && HasHandle(w, h) && StatusOf(w, h) == Running
    && s' == WithWorker(s, k, WithExit(w, h, code)).(remote := s'.remote)
    && match h
       case Copy(j) => j < |cfg.files[k]| && CopyEffect(s.remote, cfg.files[k][j], code, s'.remote)
       case JoinProc(m) => JoinEffect(s.remote, w.joins[m].dst, code, s'.remote)
  }

  ghost predicate ReapPieceStep(cfg: Config, s: State, k: nat, n: nat, s': State)
    requires k < |s.workers| == |cfg.files|
  {
    var w := s.workers[k];
    && AtWait(cfg.mpt, cfg.files[k], w)
    && n < |w.psprocs| == |w.psdst| && w.psprocs[n].Copy? && HasHandle(w, w.psprocs[n])
    && var st := StatusOf(w, w.psprocs[n]);
    && st.Exited?
    && var dst := w.psdst[n];
    if st.code != 0 then s' == WithWorker(s, k, w.(outcome := Returned(st.code)))
    else if dst !in s.counts then s' == WithWorker(s, k, PieceReaped(w, n, NoKey))
    else
      var left := s.counts[dst] - 1;
      s' == WithWorker(s, k, PieceReaped(w, n, if left == 0 then Last else Remaining))
            .(counts := s.counts[dst := left])
  }

  ghost predicate ReapPlainStep(cfg: Config, s: State, k: nat, n: nat, s': State)
    requires k < |s.workers| == |cfg.files|
  {
    var w := s.workers[k];
    && AtWait(cfg.mpt, cfg.files[k], w)
    && n < |w.procs| && HasHandle(w, w.procs[n])
    && var st := StatusOf(w, w.procs[n]);
    && st.Exited?
    && s' == WithWorker(s, k, if st.code != 0 then w.(outcome := Returned(st.code)) else PlainReaped(w, n))
  }

  ghost predicate Step(cfg: Config, s: State, e: Event, s': State) {
    && e.w < |s.workers| == |cfg.files|
    && var w := s.workers[e.w];
    match e
    case Spawn(k) => CanSpawn(cfg.mpt, cfg.files[k], w) && s' == WithWorker(s, k, Spawned(cfg.files[k], w))
    case Exit(k, h, code) => ExitStep(cfg, s, k, h, code, s')
    case ReapPiece(k, n) => ReapPieceStep(cfg, s, k, n, s')
    case ReapPlain(k, n) => ReapPlainStep(cfg, s, k, n, s')
    case Finish(k) =>
      w.outcome == Active && w.completed == |cfg.files[k]| && s' == WithWorker(s, k, w.(outcome := Returned(0)))
  }

  const FRESH := Worker(0, 0, [], [], [], [], [], {}, Active)

  ghost predicate Init(cfg: Config, s: State) {
    && |s.workers| == |cfg.files|
    && s.counts == cfg.counts
    && forall k :: 0 <= k < |s.workers| ==> s.workers[k] == FRESH
  }

  /** A finite run: states joined by events. */
  ghost predicate IsRun(cfg: Config, states: seq<State>, events: seq<Event>) {
    && |states| == |events| + 1
    && Init(cfg, states[0])
    && forall t :: 0 <= t < |events| ==> Step(cfg, states[t], events[t], states[t + 1])
  }

  // ---- what the plan must provide --------------------------------------

  ghost predicate IsItemName(cfg: Config, x: string) {
    exists w, j :: IsSlot(cfg.files, w, j) && cfg.files[w][j].name == x
  }

  ghost predicate PieceSlot(cfg: Config, w: int, j: int, d: string, k: nat, n: nat, content: Bytes) {
    && IsSlot(cfg.files, w, j)
    && IsPiece(cfg.files[w][j])
    && cfg.files[w][j].name == PieceName(d, k, PadWidth(n))
    && Received(cfg.files[w][j]) == content
  }

  /** The items whose parsed destination is d. */
  ghost function PieceSet(cfg: Config, d: string): set<(int, int)> {
    set w, j | 0 <= w < |cfg.files| && 0 <= j < |cfg.files[w]| &&
      IsPiece(cfg.files[w][j]) && TargetOf(cfg.files[w][j].name) == d :: (w, j)
  }

  /** The plan, with the contents of the pieces of every split destination. */
  ghost predicate PlanOk(cfg: Config, pieces: map<string, seq<Bytes>>) {
    && cfg.mpt > 0
    && pieces.Keys == cfg.counts.Keys && "" !in pieces
    && (forall d :: d in pieces ==> cfg.counts[d] == |pieces[d]| > 0)
    && NamesDistinct(cfg)
    && PiecesPlaced(cfg, pieces)
    && ItemsOk(cfg, pieces)
    && NotNested(pieces)
    && PieceSetsSized(cfg, pieces)
  }

  ghost predicate PiecePlaced(cfg: Config, d: string, k: nat, n: nat, content: Bytes) {
    exists w, j :: PieceSlot(cfg, w, j, d, k, n, content)
  }

  ghost predicate PiecesPlaced(cfg: Config, pieces: map<string, seq<Bytes>>) {
    forall d, k: nat :: d in pieces && k < |pieces[d]| ==> PiecePlaced(cfg, d, k, |pieces[d]|, pieces[d][k])
  }

  ghost predicate ItemsOk(cfg: Config, pieces: map<string, seq<Bytes>>) {
    forall w, j :: IsSlot(cfg.files, w, j) ==> ItemOk(cfg.files[w][j], pieces)
  }

  /** No split destination matches the pattern of another one, or is taken for
      one of its pieces. */
  ghost predicate NotNested(pieces: map<string, seq<Bytes>>) {
    forall d, c :: d in pieces && c in pieces ==> !GlobMatch(d, c) && !(LooksLikePiece(c) && TargetOf(c) == d)
  }

  ghost predicate PieceSetsSized(cfg: Config, pieces: map<string, seq<Bytes>>) {
    forall d :: d in pieces ==> |PieceSet(cfg, d)| == |pieces[d]| - (if LooksLikePiece(d) then 1 else 0)
  }

  ghost predicate NamesDistinct(cfg: Config) {
    forall w, j, w', j'
      | IsSlot(cfg.files, w, j) && IsSlot(cfg.files, w', j') && cfg.files[w][j].name == cfg.files[w'][j'].name
      :: w == w' && j == j'
  }

  ghost predicate ItemOk(x: Xfer, pieces: map<string, seq<Bytes>>) {
    && (IsPiece(x) && TargetOf(x.name) in pieces ==>
        var d := TargetOf(x.name);
        exists k :: 0 <= k < |pieces[d]| && x.name == PieceName(d, k, PadWidth(|pieces[d]|)))
    && (forall d :: d in pieces && GlobMatch(d, x.name) ==> IsPiece(x) && TargetOf(x.name) == d)
  }

  // ---- invariant -------------------------------------------------------

  ghost predicate Distinct<T>(s: seq<T>) {
    forall a, b :: 0 <= a < b < |s| ==> s[a] != s[b]
  }

  ghost predicate PieceHandleOk(files: seq<Xfer>, w: Worker, k: int)
    requires 0 <= k < |w.psprocs| == |w.psdst| && w.i <= |files|
  {
    var h := w.psprocs[k];
    h.Copy? && h.j < w.i && h.j !in w.reaped && IsPiece(files[h.j]) && w.psdst[k] == TargetOf(files[h.j].name)
  }

  ghost predicate PlainHandleOk(files: seq<Xfer>, w: Worker, k: int)
    requires 0 <= k < |w.procs| && w.i <= |files|
  {
    match w.procs[k]
    case Copy(j) => j < w.i && j !in w.reaped && !IsPiece(files[j])
    case JoinProc(m) => m < |w.joins|
  }

  /** What every worker keeps, whatever the others do. */
  ghost predicate WorkerInv(mpt: nat, files: seq<Xfer>, w: Worker) {
    && w.i == |w.xfers| <= |files|
    && (w.outcome != Crashed ==> w.completed + Outstanding(w) == w.i)
    && (w.outcome == Crashed ==> w.completed + Outstanding(w) + 1 == w.i)
    && (w.outcome == Returned(0) ==> w.completed == |files|)
    && Outstanding(w) <= mpt
    && |w.psdst| == |w.psprocs|
    && (forall k :: 0 <= k < |w.psprocs| ==> PieceHandleOk(files, w, k))
    && (forall k :: 0 <= k < |w.procs| ==> PlainHandleOk(files, w, k))
    && Distinct(w.psprocs) && Distinct(w.procs)
    && (forall j :: j in w.reaped ==> j < w.i && w.xfers[j] == Exited(0))
    && (w.outcome != Crashed ==>
        forall j :: 0 <= j < w.i ==> j in w.reaped || Copy(j) in w.psprocs || Copy(j) in w.procs)
    && (forall m :: 0 <= m < |w.joins| ==> JoinProc(m) in w.procs || w.joins[m].status == Exited(0))
  }

  ghost predicate WorkersInv(cfg: Config, s: State) {
    && |s.workers| == |cfg.files|
    && forall k :: 0 <= k < |s.workers| ==> WorkerInv(cfg.mpt, cfg.files[k], s.workers[k])
  }

  ghost function Done(s: State): set<(int, int)> {
    set w, j | 0 <= w < |s.workers| && j in s.workers[w].reaped :: (w, j)
  }

  /** A countdown shows the pieces that have not been reaped with code 0. */
  ghost predicate CountsMatch(cfg: Config, counts: map<string, int>, done: set<(int, int)>) {
    counts.Keys == cfg.counts.Keys && forall d :: d in counts ==> CountMatches(cfg, counts, done, d)
  }

  ghost predicate CountMatches(cfg: Config, counts: map<string, int>, done: set<(int, int)>, d: string)
    requires d in counts && d in cfg.counts
  {
    counts[d] == cfg.counts[d] - |done * PieceSet(cfg, d)|
  }

  ghost predicate DoneKnown(cfg: Config, done: set<(int, int)>) {
    forall x :: x in done && IsSlot(cfg.files, x.0, x.1) && IsPiece(cfg.files[x.0][x.1]) ==>
      TargetOf(cfg.files[x.0][x.1].name) in cfg.counts
  }

  ghost predicate CountsInv(cfg: Config, s: State) {
    CountsMatch(cfg, s.counts, Done(s)) && DoneKnown(cfg, Done(s))
  }

  predicate IsJoin(s: State, w: int, m: int, d: string) {
    0 <= w < |s.workers| && 0 <= m < |s.workers[w].joins| && s.workers[w].joins[m].dst == d
  }

  ghost predicate Joined(s: State, d: string) {
    exists w, m :: IsJoin(s, w, m, d) && s.workers[w].joins[m].status == Exited(0)
  }

  /** The join of d has exited, with whatever code. */
  ghost predicate JoinEnded(s: State, d: string) {
    exists w, m :: IsJoin(s, w, m, d) && s.workers[w].joins[m].status.Exited?
  }

  /** A destination has a join process exactly when its countdown is at zero,
      and never a second one. */
  ghost predicate JoinsInv(s: State) {
    && (forall w, m, d :: IsJoin(s, w, m, d) ==> d in s.counts && s.counts[d] == 0)
    && (forall w, m, w', m', d :: IsJoin(s, w, m, d) && IsJoin(s, w', m', d) ==> w == w' && m == m')
    && (forall d :: d in s.counts && s.counts[d] == 0 ==> exists w, m :: IsJoin(s, w, m, d))
  }

  predicate CopiedOk(s: State, w: int, j: int) {
    0 <= w < |s.workers| && 0 <= j < |s.workers[w].xfers| && s.workers[w].xfers[j] == Exited(0)
  }

  ghost predicate ItemStored(s: State, x: Xfer) {
    && (!IsPiece(x) ==> Holds(s.remote, x.name, x.file))
    && (IsPiece(x) && TargetOf(x.name) in s.counts && !JoinEnded(s, TargetOf(x.name)) ==>
        Holds(s.remote, x.name, Received(x)))
  }

  ghost predicate IsPieceOf(d: string, n: nat, x: string) {
    exists i :: 0 < i < n && x == PieceName(d, i, PadWidth(n))
  }

  /** Whatever is under the pattern of d besides its n pieces is empty. */
  ghost predicate ForeignEmpty(remote: map<string, Bytes>, d: string, n: nat) {
    forall x :: x in remote && GlobMatch(d, x) && !IsPieceOf(d, n, x) ==> remote[x] == []
  }

  /** d has been joined: nothing is left under its pattern, and what it holds is
      its pieces exactly if nothing with any content was there before; it is
      longer otherwise. */
  ghost predicate JoinStored(s: State, pieces: map<string, seq<Bytes>>, before: map<string, Bytes>, d: string)
    requires d in pieces
  {
    && d in s.remote
    && (if ForeignEmpty(before, d, |pieces[d]|) then s.remote[d] == Flatten(pieces[d])
        else |s.remote[d]| > |Flatten(pieces[d])|)
    && forall x :: x in s.remote ==> !GlobMatch(d, x)
  }

  ghost predicate ItemsStored(cfg: Config, s: State) {
    forall w, j | CopiedOk(s, w, j) && IsSlot(cfg.files, w, j) :: ItemStored(s, cfg.files[w][j])
  }

  ghost predicate JoinsStored(pieces: map<string, seq<Bytes>>, before: map<string, Bytes>, s: State) {
    forall d :: d in pieces && Joined(s, d) ==> JoinStored(s, pieces, before, d)
  }

  /** x is under the pattern of a join that has exited. */
  ghost predicate Swept(s: State, x: string) {
    exists d :: JoinEnded(s, d) && GlobMatch(d, x)
  }

  ghost predicate OtherKept(before: map<string, Bytes>, s: State, x: string) {
    && (x in s.remote ==> x in before && s.remote[x] == before[x])
    && (x in before && !Swept(s, x) ==> x in s.remote)
  }

  /** Names of no item only ever go away, and only by a join. */
  ghost predicate NonItemsKept(cfg: Config, before: map<string, Bytes>, s: State) {
    forall x :: !IsItemName(cfg, x) ==> OtherKept(before, s, x)
  }

  ghost predicate RemoteInv(cfg: Config, pieces: map<string, seq<Bytes>>, before: map<string, Bytes>, s: State) {
    ItemsStored(cfg, s) && JoinsStored(pieces, before, s) && NonItemsKept(cfg, before, s)
  }

  ghost predicate Inv(cfg: Config, pieces: map<string, seq<Bytes>>, before: map<string, Bytes>, s: State) {
    && PlanOk(cfg, pieces)
    && WorkersInv(cfg, s)
    && CountsInv(cfg, s)
    && JoinsInv(s)
    && RemoteInv(cfg, pieces, before, s)
  }
}
