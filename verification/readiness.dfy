/** Waiting for all nodes of a pool to become ready (convoy/batch.py:625-818
    and 861-895). */
module Readiness {
  import opened Common

  const MAX_REBOOT_RETRIES: nat := 5

  datatype NodeState = Creating | Idle | LeavingPool | Offline | Preempted | Rebooting | Reimaging | Running
    | StartTaskFailed | Starting | Unknown | Unusable | WaitingForStartTask

  datatype Node = Node(id: string, state: NodeState)

  datatype ResizeError = CoreQuotaReached | LowPriorityCoreQuotaReached | AllocationTimedOut | OtherResizeError

  datatype Allocation = Steady | Resizing | Stopping

  /** What one round of polling hears: the pool, then its nodes, and its nodes
      once more after reboots. A list is None after an SSL error. */
  datatype Round = Round(dedicated: nat, lowPriority: nat, errors: seq<ResizeError>, allocation: Allocation,
                         first: Option<seq<Node>>, second: Option<seq<Node>>)

  datatype Settings = Settings(rebootOnStartTaskFailed: bool, attemptRecoveryOnUnusable: bool,
                               stopping: set<NodeState>, ends: set<NodeState>)

  /** The calls that change the pool. */
  datatype Action = Reboot(id: string) | DeleteUnusable | Resize

  datatype Reason = FatalResize | OutOfRetries(id: string) | FailedStartTask | UnusableNodes | NotInEndState

  datatype Verdict = Waiting | Returned(nodes: seq<Node>) | Raised(reason: Reason)

  datatype State = State(reboots: map<string, nat>, unusableDelete: bool, log: seq<Action>, verdict: Verdict)

  const START := State(map[], false, [], Waiting)

  function Fatal(e: ResizeError, r: Round): bool {
    || e.CoreQuotaReached?
    || (e.LowPriorityCoreQuotaReached? && r.dedicated == 0)
    || (e.AllocationTimedOut? && (r.dedicated > 0 || r.allocation.Steady?))
  }

  predicate AnyFatal(r: Round) {
    exists i | 0 <= i < |r.errors| :: Fatal(r.errors[i], r)
  }

  predicate AnyIn(nodes: seq<Node>, state: NodeState) {
    exists i | 0 <= i < |nodes| :: nodes[i].state == state
  }

  predicate AllIn(nodes: seq<Node>, states: set<NodeState>) {
    forall i | 0 <= i < |nodes| :: nodes[i].state in states
  }

  function Listed(nodes: Option<seq<Node>>): seq<Node> {
    if nodes.Some? then nodes.value else []
  }

  function RebootsOf(s: State, id: string): nat {
    if id in s.reboots then s.reboots[id] else 0
  }

  /** One node of the reboot loop. */
  function RebootNode(s: State, node: Node): State {
    if node.state != StartTaskFailed || s.verdict != Waiting then s
    else if RebootsOf(s, node.id) > MAX_REBOOT_RETRIES then
      s.(reboots := s.reboots[node.id := RebootsOf(s, node.id)], verdict := Raised(OutOfRetries(node.id)))
    else
      s.(reboots := s.reboots[node.id := RebootsOf(s, node.id) + 1], log := s.log + [Reboot(node.id)])
  }

  function RebootFailed(s: State, nodes: seq<Node>): State {
    if nodes == [] then s else RebootNode(RebootFailed(s, nodes[..|nodes| - 1]), nodes[|nodes| - 1])
  }

  predicate FullyAllocated(c: Settings, r: Round, nodes: seq<Node>) {
    |nodes| == r.dedicated + r.lowPriority && AllIn(nodes, c.stopping)
  }

  /** The checks at the end of a round. */
  function Concluded(c: Settings, s: State, r: Round, nodes: seq<Node>): State {
    if FullyAllocated(c, r, nodes) then
      s.(verdict := if AllIn(nodes, c.ends) then Returned(nodes) else Raised(NotInEndState))
    else if s.unusableDelete && |nodes| < r.dedicated + r.lowPriority && !r.allocation.Resizing? then
      s.(unusableDelete := false, log := s.log + [Resize])
    else s
  }

  function Step(c: Settings, s: State, r: Round): State {
    var nodes := Listed(r.first);
    if s.verdict != Waiting then s
    else if AnyFatal(r) then s.(verdict := Raised(FatalResize))
    else if AnyIn(nodes, StartTaskFailed) then
      if !c.rebootOnStartTaskFailed then s.(verdict := Raised(FailedStartTask))
      else
        var after := RebootFailed(s, nodes);
        if after.verdict != Waiting then after else Concluded(c, after, r, Listed(r.second))
    else if AnyIn(nodes, Unusable) then
      if !c.attemptRecoveryOnUnusable then s.(verdict := Raised(UnusableNodes))
      else Concluded(c, s.(unusableDelete := true, log := s.log + [DeleteUnusable]), r, nodes)
    else Concluded(c, s, r, nodes)
  }

  function Run(c: Settings, rounds: seq<Round>): State {
    if rounds == [] then START else Step(c, Run(c, rounds[..|rounds| - 1]), rounds[|rounds| - 1])
  }

  // ---- reboots ---------------------------------------------------------

  /** How often a node was rebooted. */
  function RebootCount(log: seq<Action>, id: string): nat {
    if log == [] then 0
    else RebootCount(log[..|log| - 1], id) + if log[|log| - 1] == Reboot(id) then 1 else 0
  }

  /** The counters of reboot_map are right, and never above one more than the
      retries. */
  ghost predicate Counted(s: State) {
    forall id :: RebootCount(s.log, id) == RebootsOf(s, id) <= MAX_REBOOT_RETRIES + 1
  }

  lemma CountAppended(s: State, a: Action, id: string)
    ensures RebootCount(s.log + [a], id) == RebootCount(s.log, id) + if a == Reboot(id) then 1 else 0
  {
    assert (s.log + [a])[..|s.log|] == s.log;
  }

  lemma RebootCounted(s: State, node: Node)
    requires Counted(s)
    ensures Counted(RebootNode(s, node))
  {
    forall id ensures RebootCount(RebootNode(s, node).log, id) == RebootsOf(RebootNode(s, node), id) <= MAX_REBOOT_RETRIES + 1 {
      CountAppended(s, Reboot(node.id), id);
      assert RebootCount(s.log, id) == RebootsOf(s, id);
    }
  }

  lemma {:induction false} RebootsCounted(s: State, nodes: seq<Node>)
    requires Counted(s)
    ensures Counted(RebootFailed(s, nodes)) && RebootFailed(s, nodes).unusableDelete == s.unusableDelete
  {
    if nodes != [] {
      RebootsCounted(s, nodes[..|nodes| - 1]);
      RebootCounted(RebootFailed(s, nodes[..|nodes| - 1]), nodes[|nodes| - 1]);
    }
  }

  lemma OtherActionCounted(s: State, s': State, a: Action)
    requires Counted(s) && !a.Reboot? && s'.reboots == s.reboots && s'.log == s.log + [a]
    ensures Counted(s')
  {
    forall id ensures RebootCount(s'.log, id) == RebootsOf(s', id) <= MAX_REBOOT_RETRIES + 1 {
      CountAppended(s, a, id);
      assert RebootCount(s.log, id) == RebootsOf(s, id);
    }
  }

  lemma SameCounted(s: State, s': State)
    requires Counted(s) && s'.reboots == s.reboots && s'.log == s.log
    ensures Counted(s')
  {
    forall id ensures RebootCount(s'.log, id) == RebootsOf(s', id) <= MAX_REBOOT_RETRIES + 1 {
      assert RebootCount(s.log, id) == RebootsOf(s, id);
    }
  }

  lemma ConcludedCounted(c: Settings, s: State, r: Round, nodes: seq<Node>)
    requires Counted(s)
    ensures Counted(Concluded(c, s, r, nodes))
  {
    var t := Concluded(c, s, r, nodes);
    if t.log == s.log {
      SameCounted(s, t);
    } else {
      OtherActionCounted(s, t, Resize);
    }
  }

  lemma StepCounted(c: Settings, s: State, r: Round)
    requires Counted(s)
    ensures Counted(Step(c, s, r))
  {
    var nodes, t := Listed(r.first), Step(c, s, r);
    if s.verdict == Waiting && !AnyFatal(r) && AnyIn(nodes, StartTaskFailed) && c.rebootOnStartTaskFailed {
      RebootsCounted(s, nodes);
      ConcludedCounted(c, RebootFailed(s, nodes), r, Listed(r.second));
    } else if s.verdict == Waiting && !AnyFatal(r) && !AnyIn(nodes, StartTaskFailed) {
      var deleted := s.(unusableDelete := true, log := s.log + [DeleteUnusable]);
      OtherActionCounted(s, deleted, DeleteUnusable);
      ConcludedCounted(c, deleted, r, nodes);
      ConcludedCounted(c, s, r, nodes);
      SameCounted(s, s.(verdict := Raised(UnusableNodes)));
    } else {
      SameCounted(s, t);
    }
  }

  /** In every run each node is rebooted at most six times. */
  lemma {:induction false} RebootsBounded(c: Settings, rounds: seq<Round>, id: string)
    ensures Counted(Run(c, rounds))
    ensures RebootCount(Run(c, rounds).log, id) <= 6
  {
    if rounds != [] {
      RebootsBounded(c, rounds[..|rounds| - 1], id);
      StepCounted(c, Run(c, rounds[..|rounds| - 1]), rounds[|rounds| - 1]);
    } else {
      assert forall x :: RebootCount(START.log, x) == 0 == RebootsOf(START, x);
    }
    assert RebootCount(Run(c, rounds).log, id) == RebootsOf(Run(c, rounds), id);
  }

  /** The loop gives up on a node only when it has used all its reboots. */
  lemma {:induction false} OutOfRetriesMeansAllUsed(c: Settings, rounds: seq<Round>, id: string)
    requires Run(c, rounds).verdict == Raised(OutOfRetries(id))
    ensures RebootCount(Run(c, rounds).log, id) == 6
  {
    RebootsBounded(c, rounds, id);
    var s := Run(c, rounds[..|rounds| - 1]);
    if s.verdict == Raised(OutOfRetries(id)) {
      OutOfRetriesMeansAllUsed(c, rounds[..|rounds| - 1], id);
    } else {
      OutOfRetriesCount(s, Listed(rounds[|rounds| - 1].first), id);
    }
  }

  lemma {:induction false} OutOfRetriesCount(s: State, nodes: seq<Node>, id: string)
    requires s.verdict != Raised(OutOfRetries(id)) && RebootFailed(s, nodes).verdict == Raised(OutOfRetries(id))
    ensures RebootsOf(RebootFailed(s, nodes), id) > MAX_REBOOT_RETRIES
  {
    if RebootFailed(s, nodes[..|nodes| - 1]).verdict == Raised(OutOfRetries(id)) {
      OutOfRetriesCount(s, nodes[..|nodes| - 1], id);
    }
  }

  /** One reboot for every node whose start task has failed, in the order of the list. */
  function FailedReboots(nodes: seq<Node>): seq<Action> {
    if nodes == [] then []
    else
      (if nodes[0].state == StartTaskFailed then [Reboot(nodes[0].id)] else []) + FailedReboots(nodes[1..])
  }

  lemma {:induction false} FailedRebootsSnoc(nodes: seq<Node>)
    requires nodes != []
    ensures FailedReboots(nodes) == FailedReboots(nodes[..|nodes| - 1]) +
      if nodes[|nodes| - 1].state == StartTaskFailed then [Reboot(nodes[|nodes| - 1].id)] else []
  {
    var n := |nodes| - 1;
    if n > 0 {
      var t := nodes[1..];
      FailedRebootsSnoc(t);
      assert t[..n - 1] == nodes[..n][1..] && t[n - 1] == nodes[n] && nodes[..n][0] == nodes[0];
    } else {
      assert nodes[..n] == [] && nodes[1..] == [];
    }
  }

  /** A round reboots exactly the nodes whose start task has failed, each once, unless it
      gives up: then those before the node it gives up on. */
  lemma {:induction false} RebootsTheFailed(s: State, nodes: seq<Node>)
    requires s.verdict == Waiting
    ensures RebootFailed(s, nodes).verdict == Waiting ==> RebootFailed(s, nodes).log == s.log + FailedReboots(nodes)
    ensures RebootFailed(s, nodes).verdict != Waiting ==>
      exists k :: 0 <= k < |nodes| && GivesUpAt(s, nodes, k)
  {
    if nodes != [] {
      var n := |nodes| - 1;
      RebootsTheFailed(s, nodes[..n]);
      FailedRebootsSnoc(nodes);
      if RebootFailed(s, nodes[..n]).verdict != Waiting {
        var k :| 0 <= k < n && GivesUpAt(s, nodes[..n], k);
        assert nodes[..n][..k] == nodes[..k] && GivesUpAt(s, nodes, k);
      } else if RebootFailed(s, nodes).verdict != Waiting {
        assert GivesUpAt(s, nodes, n);
      }
    }
  }

  /** The loop has given up on node k, which had used its reboots, after the reboots of
      the failed nodes before it. */
  predicate GivesUpAt(s: State, nodes: seq<Node>, k: nat)
    requires k < |nodes|
  {
    && nodes[k].state == StartTaskFailed && RebootsOf(RebootFailed(s, nodes[..k]), nodes[k].id) > MAX_REBOOT_RETRIES
    && RebootFailed(s, nodes).verdict == Raised(OutOfRetries(nodes[k].id))
    && RebootFailed(s, nodes).log == s.log + FailedReboots(nodes[..k])
  }

  // ---- deletions and resizes -----------------------------------------------

  /** Unusable nodes were deleted and no resize has followed yet. */
  predicate Owed(log: seq<Action>) {
    log != [] &&
    match log[|log| - 1]
    case DeleteUnusable => true
    case Resize => false
    case Reboot(_) => Owed(log[..|log| - 1])
  }

  /** Every resize makes up for a deletion of its own. */
  predicate Proper(log: seq<Action>) {
    log == [] || (Proper(log[..|log| - 1]) && (log[|log| - 1].Resize? ==> Owed(log[..|log| - 1])))
  }

  ghost predicate Balanced(s: State) {
    Proper(s.log) && s.unusableDelete == Owed(s.log)
  }

  lemma Appended(log: seq<Action>, a: Action)
    ensures (log + [a])[..|log|] == log
    ensures Owed(log + [a]) == if a.Reboot? then Owed(log) else a.DeleteUnusable?
    ensures Proper(log + [a]) == (Proper(log) && (a.Resize? ==> Owed(log)))
  {
    assert (log + [a])[..|log|] == log;
  }

  lemma {:induction false} RebootsBalanced(s: State, nodes: seq<Node>)
    requires Balanced(s)
    ensures Balanced(RebootFailed(s, nodes))
  {
    if nodes != [] {
      var n := |nodes| - 1;
      RebootsBalanced(s, nodes[..n]);
      Appended(RebootFailed(s, nodes[..n]).log, Reboot(nodes[n].id));
    }
  }

  lemma ConcludedBalanced(c: Settings, s: State, r: Round, nodes: seq<Node>)
    requires Balanced(s)
    ensures Balanced(Concluded(c, s, r, nodes))
  {
    Appended(s.log, Resize);
  }

  lemma StepBalanced(c: Settings, s: State, r: Round)
    requires Balanced(s)
    ensures Balanced(Step(c, s, r))
  {
    var nodes := Listed(r.first);
    if s.verdict == Waiting && !AnyFatal(r) {
      if AnyIn(nodes, StartTaskFailed) {
        RebootsBalanced(s, nodes);
        ConcludedBalanced(c, RebootFailed(s, nodes), r, Listed(r.second));
      } else if AnyIn(nodes, Unusable) {
        Appended(s.log, DeleteUnusable);
        ConcludedBalanced(c, s.(unusableDelete := true, log := s.log + [DeleteUnusable]), r, nodes);
      } else {
        ConcludedBalanced(c, s, r, nodes);
      }
    }
  }

  /** In every run the flag says whether a resize is owed, and every resize makes
      up for a deletion. */
  lemma {:induction false} ResizesOnlyAfterDeletions(c: Settings, rounds: seq<Round>)
    ensures Balanced(Run(c, rounds))
  {
    if rounds != [] {
      ResizesOnlyAfterDeletions(c, rounds[..|rounds| - 1]);
      StepBalanced(c, Run(c, rounds[..|rounds| - 1]), rounds[|rounds| - 1]);
    }
  }

  function Count(log: seq<Action>, a: Action): nat {
    if log == [] then 0 else Count(log[..|log| - 1], a) + if log[|log| - 1] == a then 1 else 0
  }

  lemma {:induction false} ProperCounts(log: seq<Action>)
    requires Proper(log)
    ensures Count(log, Resize) + (if Owed(log) then 1 else 0) <= Count(log, DeleteUnusable)
  {
    if log != [] {
      ProperCounts(log[..|log| - 1]);
    }
  }

  /** Resizes never outnumber the deletions of unusable nodes. */
  lemma ResizesBounded(c: Settings, rounds: seq<Round>)
    ensures Count(Run(c, rounds).log, Resize) <= Count(Run(c, rounds).log, DeleteUnusable)
  {
    ResizesOnlyAfterDeletions(c, rounds);
    ProperCounts(Run(c, rounds).log);
  }

  // ---- outcomes ----------------------------------------------------------

  ghost predicate ReadyIn(c: Settings, r: Round, nodes: seq<Node>) {
    && |nodes| == r.dedicated + r.lowPriority && (forall n :: n in nodes ==> n.state in c.ends && n.state in c.stopping)
    && (nodes == Listed(r.first) || nodes == Listed(r.second))
  }

  /** A normal return carries the nodes as a round listed them: exactly as many
      as the target, all of them in end states. */
  lemma {:induction false} ReturnedNodesAreReady(c: Settings, rounds: seq<Round>)
    requires Run(c, rounds).verdict.Returned?
    ensures exists r :: r in rounds && ReadyIn(c, r, Run(c, rounds).verdict.nodes)
  {
    var n := |rounds| - 1;
    var s := Run(c, rounds[..n]);
    if s.verdict.Returned? {
      ReturnedNodesAreReady(c, rounds[..n]);
      var r :| r in rounds[..n] && ReadyIn(c, r, s.verdict.nodes);
      assert r in rounds;
    } else {
      StepReturnsReady(c, s, rounds[n]);
      assert rounds[n] in rounds;
    }
  }

  lemma StepReturnsReady(c: Settings, s: State, r: Round)
    requires !s.verdict.Returned? && Step(c, s, r).verdict.Returned?
    ensures ReadyIn(c, r, Step(c, s, r).verdict.nodes)
  {
    RebootNeverReturns(s, Listed(r.first));
  }

  lemma {:induction false} RebootNeverReturns(s: State, nodes: seq<Node>)
    requires !s.verdict.Returned?
    ensures !RebootFailed(s, nodes).verdict.Returned?
  {
    if nodes != [] {
      RebootNeverReturns(s, nodes[..|nodes| - 1]);
    }
  }

  /** The states that wait_for_pool_ready waits for. */
  function PoolReady(reboot: bool, recover: bool, more: set<NodeState>): Settings {
    Settings(reboot, recover, {StartTaskFailed, Unusable, Preempted, Idle} + more, {Preempted, Idle} + more)
  }

  /** Recovery from unusable nodes goes on only if the list is short or some node
      is still on its way: otherwise the round that deletes them also raises. */
  lemma RecoverySurvivesIff(reboot: bool, more: set<NodeState>, s: State, r: Round)
    requires s.verdict == Waiting && !AnyFatal(r) && Unusable !in more
    requires AnyIn(Listed(r.first), Unusable) && !AnyIn(Listed(r.first), StartTaskFailed)
    ensures var c, nodes := PoolReady(reboot, true, more), Listed(r.first);
      && s.log + [DeleteUnusable] <= Step(c, s, r).log
      && (Step(c, s, r).verdict == Waiting <==>
            |nodes| != r.dedicated + r.lowPriority || !AllIn(nodes, c.stopping))
      && (Step(c, s, r).verdict != Waiting ==> Step(c, s, r).verdict == Raised(NotInEndState))
  {
    var c, nodes := PoolReady(reboot, true, more), Listed(r.first);
    var k :| 0 <= k < |nodes| && nodes[k].state == Unusable;
    assert nodes[k].state !in c.ends;
  }

  // ---- what a round decides ----------------------------------------------

  /** Which resize errors end the wait: a core quota; a low priority core quota if there
      are no dedicated nodes; a timeout with dedicated nodes or in a steady pool. */
  lemma FatalIff(c: Settings, s: State, r: Round)
    requires s.verdict == Waiting
    ensures Step(c, s, r).verdict == Raised(FatalResize) <==>
      || CoreQuotaReached in r.errors
      || (LowPriorityCoreQuotaReached in r.errors && r.dedicated == 0)
      || (AllocationTimedOut in r.errors && (r.dedicated > 0 || r.allocation == Steady))
    ensures Step(c, s, r).verdict == Raised(FatalResize) ==> Step(c, s, r).log == s.log
  {
    RebootGivesUpOnly(s, Listed(r.first));
    assert forall e :: e in r.errors <==> exists i :: 0 <= i < |r.errors| && r.errors[i] == e;
  }

  lemma {:induction false} RebootGivesUpOnly(s: State, nodes: seq<Node>)
    requires s.verdict == Waiting
    ensures RebootFailed(s, nodes).verdict == Waiting ||
      (RebootFailed(s, nodes).verdict.Raised? && RebootFailed(s, nodes).verdict.reason.OutOfRetries?)
  {
    if nodes != [] {
      RebootGivesUpOnly(s, nodes[..|nodes| - 1]);
    }
  }

  ghost predicate SomeIn(nodes: seq<Node>, state: NodeState) {
    exists n :: n in nodes && n.state == state
  }

  lemma AnyInIff(nodes: seq<Node>, state: NodeState)
    ensures AnyIn(nodes, state) <==> SomeIn(nodes, state)
  {
    if SomeIn(nodes, state) {
      var n :| n in nodes && n.state == state;
      var i :| 0 <= i < |nodes| && nodes[i] == n;
      assert nodes[i].state == state;
    }
  }

  lemma AllInIff(nodes: seq<Node>, states: set<NodeState>)
    ensures AllIn(nodes, states) <==> forall n :: n in nodes ==> n.state in states
  {
  }

  /** The list that a round judges: the second one after reboots. */
  ghost function Judged(r: Round): seq<Node> {
    if SomeIn(Listed(r.first), StartTaskFailed) then Listed(r.second) else Listed(r.first)
  }

  /** The round comes to the checks at its end. */
  ghost predicate Judges(c: Settings, s: State, r: Round) {
    var nodes := Listed(r.first);
    && Step(c, s, r).verdict != Raised(FatalResize)
    && (SomeIn(nodes, StartTaskFailed) ==> c.rebootOnStartTaskFailed && RebootFailed(s, nodes).verdict == Waiting)
    && (!SomeIn(nodes, StartTaskFailed) && SomeIn(nodes, Unusable) ==> c.attemptRecoveryOnUnusable)
  }

  /** The nodes are as many as the target, and none is still on its way. */
  ghost predicate Settled(c: Settings, r: Round) {
    |Judged(r)| == r.dedicated + r.lowPriority && forall n :: n in Judged(r) ==> n.state in c.stopping
  }

  /** What a round ends in. */
  lemma RoundVerdict(c: Settings, s: State, r: Round)
    requires s.verdict == Waiting && Step(c, s, r).verdict != Raised(FatalResize)
    ensures var nodes, v := Listed(r.first), Step(c, s, r).verdict;
      && (v == Raised(FailedStartTask) <==> SomeIn(nodes, StartTaskFailed) && !c.rebootOnStartTaskFailed)
      && (v == Raised(UnusableNodes) <==>
            !SomeIn(nodes, StartTaskFailed) && SomeIn(nodes, Unusable) && !c.attemptRecoveryOnUnusable)
      && (v.Raised? && v.reason.OutOfRetries? <==>
            SomeIn(nodes, StartTaskFailed) && c.rebootOnStartTaskFailed && RebootFailed(s, nodes).verdict != Waiting)
      && (v == Raised(NotInEndState) <==>
            Judges(c, s, r) && Settled(c, r) && exists n :: n in Judged(r) && n.state !in c.ends)
      && (v.Returned? <==> Judges(c, s, r) && Settled(c, r) && forall n :: n in Judged(r) ==> n.state in c.ends)
      && (v.Returned? ==> v.nodes == Judged(r))
  {
    var nodes := Listed(r.first);
    AnyInIff(nodes, StartTaskFailed);
    AnyInIff(nodes, Unusable);
    AllInIff(Judged(r), c.stopping);
    AllInIff(Judged(r), c.ends);
    RebootGivesUpOnly(s, nodes);
  }

  /** Which calls a round makes: the reboots of failed nodes, or the deletion of unusable
      ones, and then a resize exactly if one is owed, nodes are missing and none is under
      way. */
  lemma RoundCalls(c: Settings, s: State, r: Round)
    requires s.verdict == Waiting && Judges(c, s, r)
    ensures var nodes := Listed(r.first);
      var first := if SomeIn(nodes, StartTaskFailed) then FailedReboots(nodes)
        else if SomeIn(nodes, Unusable) then [DeleteUnusable] else [];
      var owed := s.unusableDelete || (!SomeIn(nodes, StartTaskFailed) && SomeIn(nodes, Unusable));
      var resizes := owed && |Judged(r)| < r.dedicated + r.lowPriority && r.allocation != Resizing;
      && Step(c, s, r).log == s.log + first + (if resizes then [Resize] else [])
      && Step(c, s, r).unusableDelete == (owed && !resizes)
  {
    var nodes := Listed(r.first);
    AnyInIff(nodes, StartTaskFailed);
    AnyInIff(nodes, Unusable);
    RebootsTheFailed(s, nodes);
    RebootsKeepOwed(s, nodes);
    assert forall log: seq<Action> :: log + [] == log;
  }

  lemma {:induction false} RebootsKeepOwed(s: State, nodes: seq<Node>)
    ensures RebootFailed(s, nodes).unusableDelete == s.unusableDelete
  {
    if nodes != [] {
      RebootsKeepOwed(s, nodes[..|nodes| - 1]);
    }
  }

  // ---- the loop ----------------------------------------------------------

  lemma {:induction false} RaisedSticks(s: State, nodes: seq<Node>, k: nat)
    requires k <= |nodes| && RebootFailed(s, nodes[..k]).verdict != Waiting
    ensures RebootFailed(s, nodes) == RebootFailed(s, nodes[..k])
    decreases |nodes|
  {
    if k < |nodes| {
      var front := nodes[..|nodes| - 1];
      assert front[..k] == nodes[..k];
      RaisedSticks(s, front, k);
    } else {
      assert nodes[..k] == nodes;
    }
  }

  /** The reboot loop; `out` tells on which node it gave up. */
  method RebootNodes(nodes: seq<Node>, before: map<string, nat>, ghost s: State)
    returns (reboots: map<string, nat>, calls: seq<Action>, out: Option<string>)
    requires s.reboots == before && s.verdict == Waiting
    ensures RebootFailed(s, nodes) == s.(reboots := reboots, log := s.log + calls,
      verdict := if out.Some? then Raised(OutOfRetries(out.value)) else Waiting)
  {
    reboots, calls, out := before, [], None;
    for k := 0 to |nodes|
      invariant RebootFailed(s, nodes[..k]) == s.(reboots := reboots, log := s.log + calls)
    {
      assert nodes[..k + 1][..k] == nodes[..k];
      var node := nodes[k];
      if node.state != StartTaskFailed {
        continue;
      }
      if node.id !in reboots {
        reboots := reboots[node.id := 0];
      }
      if reboots[node.id] > MAX_REBOOT_RETRIES {
        RaisedSticks(s, nodes, k + 1);
        return reboots, calls, Some(node.id);
      }
      calls := calls + [Reboot(node.id)];
      reboots := reboots[node.id := reboots[node.id] + 1];
    }
    assert nodes[..|nodes|] == nodes;
  }

  /** The check for full allocation and the resize that may be owed. */
  method Conclude(c: Settings, r: Round, nodes: seq<Node>, owed: bool, ghost s: State)
    returns (owed': bool, calls: seq<Action>, verdict: Verdict)
    requires s.verdict == Waiting && s.unusableDelete == owed
    ensures Concluded(c, s, r, nodes) == s.(unusableDelete := owed', log := s.log + calls, verdict := verdict)
  {
    assert s.log + [] == s.log;
    owed', calls, verdict := owed, [], Waiting;
    var total := r.dedicated + r.lowPriority;
    if |nodes| == total && AllIn(nodes, c.stopping) {
      if !AllIn(nodes, c.ends) {
        return owed, [], Raised(NotInEndState);
      }
      return owed, [], Returned(nodes);
    }
    if owed && |nodes| < total && r.allocation != Resizing {
      return false, [Resize], Waiting;
    }
  }

  /** One round of the loop. */
  method Poll(c: Settings, r: Round, reboots: map<string, nat>, owed: bool, ghost s: State)
    returns (reboots': map<string, nat>, owed': bool, calls: seq<Action>, verdict: Verdict)
    requires s.verdict == Waiting && s.reboots == reboots && s.unusableDelete == owed
    ensures Step(c, s, r) == State(reboots', owed', s.log + calls, verdict)
  {
    assert s.log + [] == s.log;
    reboots', owed', calls, verdict := reboots, owed, [], Waiting;
    if AnyFatal(r) {
      return reboots, owed, [], Raised(FatalResize);
    }
    var nodes := Listed(r.first);
    ghost var now := s;
    if AnyIn(nodes, StartTaskFailed) {
      if !c.rebootOnStartTaskFailed {
        return reboots, owed, [], Raised(FailedStartTask);
      }
      var out;
      reboots', calls, out := RebootNodes(nodes, reboots, s);
      if out.Some? {
        return reboots', owed, calls, Raised(OutOfRetries(out.value));
      }
      now := RebootFailed(s, nodes);
      nodes := Listed(r.second);
    } else if AnyIn(nodes, Unusable) {
      if !c.attemptRecoveryOnUnusable {
        return reboots, owed, [], Raised(UnusableNodes);
      }
      calls, owed' := [DeleteUnusable], true;
      now := s.(unusableDelete := true, log := s.log + [DeleteUnusable]);
    }
    var more;
    owed', more, verdict := Conclude(c, r, nodes, owed', now);
    assert (s.log + calls) + more == s.log + (calls + more);
    calls := calls + more;
  }

  /** _block_for_nodes_ready, on the rounds of an environment; `used` of them
      happen. */
  method BlockForNodesReady(c: Settings, rounds: seq<Round>) returns (verdict: Verdict, log: seq<Action>, used: nat)
    ensures used <= |rounds|
    ensures verdict == Run(c, rounds[..used]).verdict && log == Run(c, rounds[..used]).log
    ensures if verdict == Waiting then used == |rounds| else used > 0 && Run(c, rounds[..used - 1]).verdict == Waiting
  {
    var reboots: map<string, nat>, unusableDelete := map[], false;
    log, verdict, used := [], Waiting, 0;
    for k := 0 to |rounds|
      invariant used == k && verdict == Waiting
      invariant Run(c, rounds[..k]) == State(reboots, unusableDelete, log, Waiting)
    {
      assert rounds[..k + 1][..k] == rounds[..k];
      var calls;
      reboots, unusableDelete, calls, verdict := Poll(c, rounds[k], reboots, unusableDelete, Run(c, rounds[..k]));
      log, used := log + calls, k + 1;
      if verdict != Waiting {
        return;
      }
    }
    assert rounds[..|rounds|] == rounds;
  }
}
