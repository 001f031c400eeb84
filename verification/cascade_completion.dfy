/** When a node can still report that all its resources are there
    (cascade/cascade.py). */
module CascadeCompletion {
  import opened Common
  import opened CascadeQueue
  import opened Cascade
  import opened CascadeNode
  import opened CascadeBounds

  // ---- what a node keeps -------------------------------------------------

  /** The flag is set exactly at the last pull, and the event loop does not end
      while a lease is being acquired. */
  predicate FlagInv(total: nat, nd: Node) {
    (nd.done <==> nd.count == total > 0) && (nd.pc.Acquiring? ==> nd.loop == Looping)
  }

  lemma PullFlag(cfg: Config, k: nat, sv: Service, nd: Node, t: nat)
    requires k < |cfg.resources| && CanStep(cfg, sv, nd, Pulled(k, t)) && NodeInv(cfg.allowed, cfg.resources[k], nd)
    requires FlagInv(|cfg.resources[k]|, nd)
    ensures FlagInv(|cfg.resources[k]|, CountPulled(WithPhase(nd, t, Counted), |cfg.resources[k]|))
  {
    var after := CountPulled(WithPhase(nd, t, Counted), |cfg.resources[k]|);
    PhaseInv(cfg.allowed, cfg.resources[k], nd, t, Counted);
    DoneBound(cfg.allowed, cfg.resources[k], after);
  }

  lemma OtherFlag(cfg: Config, k: nat, sv: Service, nd: Node, e: Event)
    requires k < |cfg.resources| && CanStep(cfg, sv, nd, e) && !e.Pulled?
    ensures var after := StepNode(cfg, k, sv, nd, e);
      after.done == nd.done && after.count == nd.count &&
      (after.pc.Acquiring? ==> after.loop == Looping || (nd.pc.Acquiring? && after.loop == nd.loop))
  {
  }

  lemma FlagStep(cfg: Config, k: nat, sv: Service, nd: Node, e: Event)
    requires k < |cfg.resources| && CanStep(cfg, sv, nd, e) && NodeInv(cfg.allowed, cfg.resources[k], nd)
    requires (e.Tick? || e.k == k) && FlagInv(|cfg.resources[k]|, nd)
    ensures FlagInv(|cfg.resources[k]|, StepNode(cfg, k, sv, nd, e))
  {
    if e.Pulled? {
      PullFlag(cfg, k, sv, nd, e.t);
    } else {
      OtherFlag(cfg, k, sv, nd, e);
    }
  }

  ghost predicate FlagsInv(cfg: Config, s: State) {
    |s.nodes| == |cfg.resources| && forall k :: 0 <= k < |s.nodes| ==> FlagInv(|cfg.resources[k]|, s.nodes[k])
  }

  lemma {:induction false} FlagsReachable(cfg: Config, events: seq<Event>)
    requires Run(cfg, events).Some?
    ensures FlagsInv(cfg, Run(cfg, events).value)
  {
    if events != [] {
      var front, e := events[..|events| - 1], events[|events| - 1];
      FlagsReachable(cfg, front);
      NodesInvReachable(cfg, front);
      var s := Run(cfg, front).value;
      if !e.Tick? {
        assert NodeInv(cfg.allowed, cfg.resources[e.k], s.nodes[e.k]);
        FlagStep(cfg, e.k, s.sv, s.nodes[e.k], e);
      }
    }
  }

  // ---- places that are never given back ----------------------------------

  /** Thread t is in the downloading set without a lease: its cleanup will raise,
      or has raised, before it leaves the set. */
  predicate Stays(nd: Node, t: int) {
    0 <= t < |nd.threads| && InSet(nd.threads[t].phase) && nd.threads[t].resource !in nd.handles
  }

  ghost function Lost(nd: Node): set<string> {
    set t | 0 <= t < |nd.threads| && Stays(nd, t) :: nd.threads[t].resource
  }

  lemma LostMember(nd: Node, t: nat)
    requires Stays(nd, t)
    ensures nd.threads[t].resource in Lost(nd)
  {
  }

  lemma LostIsDownloading(allowed: nat, resources: seq<string>, nd: Node)
    requires NodeInv(allowed, resources, nd)
    ensures Lost(nd) <= nd.downloading && |Lost(nd)| <= |nd.downloading|
  {
    SubsetSize(Lost(nd), nd.downloading);
  }

  /** What is lost stays lost. */
  lemma ThreadStays(cfg: Config, k: nat, sv: Service, nd: Node, e: Event, t: nat)
    requires k < |cfg.resources| && CanStep(cfg, sv, nd, e) && (e.Tick? || e.k == k)
    requires NodeInv(cfg.allowed, cfg.resources[k], nd) && Stays(nd, t)
    ensures var after := StepNode(cfg, k, sv, nd, e);
      Stays(after, t) && after.threads[t].resource == nd.threads[t].resource
  {
    assert nd.threads[t].resource in nd.downloading;
  }

  lemma LostGrows(cfg: Config, k: nat, sv: Service, nd: Node, e: Event)
    requires k < |cfg.resources| && CanStep(cfg, sv, nd, e) && (e.Tick? || e.k == k)
    requires NodeInv(cfg.allowed, cfg.resources[k], nd)
    ensures Lost(nd) <= Lost(StepNode(cfg, k, sv, nd, e))
  {
    forall x | x in Lost(nd) ensures x in Lost(StepNode(cfg, k, sv, nd, e)) {
      var t :| 0 <= t < |nd.threads| && Stays(nd, t) && nd.threads[t].resource == x;
      ThreadStays(cfg, k, sv, nd, e, t);
      LostMember(StepNode(cfg, k, sv, nd, e), t);
    }
  }

  // ---- the condition -----------------------------------------------------

  /** The queue can still be emptied. */
  ghost predicate CanDrain(allowed: nat, nd: Node) {
    && allowed > 0 && nd.loop == Looping
    && |Lost(nd)| <= allowed && forall x :: x in nd.queue ==> x !in Lost(nd)
  }

  /** There is something to pull, no pull has failed, and what is queued or about to
      be leased can be pulled. */
  ghost predicate Finishable(allowed: nat, resources: seq<string>, nd: Node) {
    && resources != [] && !HasRaised(nd)
    && (nd.queue == [] || CanDrain(allowed, nd))
    && (nd.pc.Acquiring? ==> allowed > 0)
  }

  lemma RaisedStays(cfg: Config, k: nat, sv: Service, nd: Node, e: Event)
    requires k < |cfg.resources| && CanStep(cfg, sv, nd, e) && HasRaised(nd)
    ensures HasRaised(StepNode(cfg, k, sv, nd, e))
  {
    var after := StepNode(cfg, k, sv, nd, e);
    var t :| 0 <= t < |nd.threads| && nd.threads[t].phase in {Raised, Cleaned(false), Broken(false)};
    assert after.threads[t].phase in {Raised, Cleaned(false), Broken(false)};
  }

  /** A queue that cannot be emptied is never emptied. */
  lemma DrainStays(cfg: Config, k: nat, sv: Service, nd: Node, e: Event)
    requires k < |cfg.resources| && CanStep(cfg, sv, nd, e) && (e.Tick? || e.k == k)
    requires NodeInv(cfg.allowed, cfg.resources[k], nd) && FlagInv(|cfg.resources[k]|, nd)
    requires cfg.allowed > 0 && nd.queue != [] && !CanDrain(cfg.allowed, nd)
    ensures var after := StepNode(cfg, k, sv, nd, e); after.queue != [] && !CanDrain(cfg.allowed, after)
  {
    var after := StepNode(cfg, k, sv, nd, e);
    LostGrows(cfg, k, sv, nd, e);
    LostIsDownloading(cfg.allowed, cfg.resources[k], nd);
    SubsetSize(Lost(nd), Lost(after));
    if e.Begin? && |nd.downloading| <= cfg.allowed {
      PickIsFree(nd.queue, nd.downloading);
      var x :| x in nd.queue && x in Lost(nd);
      QueueKeeps(nd.queue, after.queue, Pick(nd.queue, {}, Still(nd.downloading), 0).0, x);
    }
  }

  lemma QueueKeeps(q: seq<string>, q': seq<string>, r: Option<string>, x: string)
    requires multiset(q') + Taken(r) == multiset(q) && x in q && r != Some(x)
    ensures x in q'
  {
    assert x in multiset(q') + Taken(r);
  }

  lemma NoSlotsStays(cfg: Config, k: nat, sv: Service, nd: Node, e: Event)
    requires k < |cfg.resources| && CanStep(cfg, sv, nd, e) && NodeInv(cfg.allowed, cfg.resources[k], nd)
    requires cfg.allowed == 0 && (nd.queue != [] || nd.pc.Acquiring?)
    ensures var after := StepNode(cfg, k, sv, nd, e); after.queue != [] || after.pc.Acquiring?
  {
    if e.Begin? && |nd.downloading| <= cfg.allowed {
      PickFirstFree(nd.queue, nd.downloading, 0, 0);
    }
  }

  lemma UnfinishableStays(cfg: Config, k: nat, sv: Service, nd: Node, e: Event)
    requires k < |cfg.resources| && CanStep(cfg, sv, nd, e) && (e.Tick? || e.k == k)
    requires NodeInv(cfg.allowed, cfg.resources[k], nd) && FlagInv(|cfg.resources[k]|, nd)
    requires !Finishable(cfg.allowed, cfg.resources[k], nd)
    ensures !Finishable(cfg.allowed, cfg.resources[k], StepNode(cfg, k, sv, nd, e))
  {
    if HasRaised(nd) {
      RaisedStays(cfg, k, sv, nd, e);
    } else if cfg.allowed == 0 && (nd.queue != [] || nd.pc.Acquiring?) {
      NoSlotsStays(cfg, k, sv, nd, e);
    } else if cfg.resources[k] != [] {
      DrainStays(cfg, k, sv, nd, e);
    }
  }

  lemma DoneIsFinishable(allowed: nat, resources: seq<string>, nd: Node)
    requires NodeInv(allowed, resources, nd) && FlagInv(|resources|, nd) && nd.done
    ensures Finishable(allowed, resources, nd)
  {
    DoneBound(allowed, resources, nd);
    StartedSize(nd.threads);
    forall t | 0 <= t < |nd.threads| ensures PulledOk(nd.threads[t].phase) {
      AllOk(nd.threads, t);
    }
  }

  /** Node k has been in a finishable state all along if it is done in the end. */
  lemma {:induction false} DoneWasFinishable(cfg: Config, events: seq<Event>, longer: seq<Event>, k: nat)
    requires events <= longer && Run(cfg, events).Some? && Run(cfg, longer).Some? && k < |cfg.resources|
    requires |Run(cfg, events).value.nodes| == |Run(cfg, longer).value.nodes| == |cfg.resources|
    requires Run(cfg, longer).value.nodes[k].done || Finishable(cfg.allowed, cfg.resources[k], Run(cfg, longer).value.nodes[k])
    ensures Finishable(cfg.allowed, cfg.resources[k], Run(cfg, events).value.nodes[k])
    decreases |longer|
  {
    NodesInvReachable(cfg, longer);
    FlagsReachable(cfg, longer);
    var nd := Run(cfg, longer).value.nodes[k];
    assert NodeInv(cfg.allowed, cfg.resources[k], nd);
    if nd.done {
      DoneIsFinishable(cfg.allowed, cfg.resources[k], nd);
    }
    if |events| == |longer| {
      assert events == longer;
    } else {
      StepBack(cfg, longer, k);
      DoneWasFinishable(cfg, events, longer[..|longer| - 1], k);
    }
  }

  lemma StepBack(cfg: Config, events: seq<Event>, k: nat)
    requires events != [] && Run(cfg, events).Some? && k < |cfg.resources|
    requires |Run(cfg, events).value.nodes| == |cfg.resources|
    requires Finishable(cfg.allowed, cfg.resources[k], Run(cfg, events).value.nodes[k])
    ensures var front := events[..|events| - 1];
      Run(cfg, front).Some? && |Run(cfg, front).value.nodes| == |cfg.resources| &&
      Finishable(cfg.allowed, cfg.resources[k], Run(cfg, front).value.nodes[k])
  {
    var front, e := events[..|events| - 1], events[|events| - 1];
    NodesInvReachable(cfg, front);
    FlagsReachable(cfg, front);
    var s := Run(cfg, front).value;
    assert NodeInv(cfg.allowed, cfg.resources[k], s.nodes[k]);
    if !e.Tick? && e.k == k && !Finishable(cfg.allowed, cfg.resources[k], s.nodes[k]) {
      UnfinishableStays(cfg, k, s.sv, s.nodes[k], e);
    }
  }

  // ---- to the end --------------------------------------------------------

  /** The run can go on from `events` to `longer`, with node k in a finishable state. */
  ghost predicate Goes(cfg: Config, events: seq<Event>, longer: seq<Event>, k: nat) {
    && events <= longer && Run(cfg, longer).Some? && k < |Run(cfg, longer).value.nodes| == |cfg.resources|
    && Finishable(cfg.allowed, cfg.resources[k], Run(cfg, longer).value.nodes[k])
  }

  function NodeAt(cfg: Config, events: seq<Event>, k: nat): Node
    requires Run(cfg, events).Some? && k < |Run(cfg, events).value.nodes|
  {
    Run(cfg, events).value.nodes[k]
  }

  lemma NodeFacts(cfg: Config, events: seq<Event>, k: nat)
    requires Run(cfg, events).Some? && k < |cfg.resources|
    ensures |Run(cfg, events).value.nodes| == |cfg.resources|
    ensures NodeInv(cfg.allowed, cfg.resources[k], NodeAt(cfg, events, k))
    ensures FlagInv(|cfg.resources[k]|, NodeAt(cfg, events, k))
  {
    NodesInvReachable(cfg, events);
    FlagsReachable(cfg, events);
  }

  /** Nothing else is lost, and nothing else is queued. */
  lemma StillFinishable(allowed: nat, resources: seq<string>, nd: Node, after: Node)
    requires Finishable(allowed, resources, nd) && !HasRaised(after) && after.pc == Idle
    requires after.queue == nd.queue && after.loop == nd.loop && Lost(after) <= Lost(nd)
    ensures Finishable(allowed, resources, after)
  {
    SubsetSize(Lost(after), Lost(nd));
  }

  lemma RegisteredFinishable(allowed: nat, resources: seq<string>, nd: Node, id: nat, now: nat)
    requires NodeInv(allowed, resources, nd) && nd.pc.Acquiring? && Finishable(allowed, resources, nd)
    ensures Finishable(allowed, resources, Registered(nd, id, now))
  {
    var after := Registered(nd, id, now);
    forall x | x in Lost(after) ensures x in Lost(nd) {
      var t :| 0 <= t < |after.threads| && Stays(after, t) && after.threads[t].resource == x;
      assert Stays(nd, t);
    }
    StillFinishable(allowed, resources, nd, after);
  }

  lemma GaveUpFinishable(allowed: nat, resources: seq<string>, nd: Node)
    requires NodeInv(allowed, resources, nd) && nd.pc.Acquiring? && Finishable(allowed, resources, nd)
    requires nd.loop == Looping
    ensures Finishable(allowed, resources, nd.(pc := Idle, queue := nd.queue + [nd.pc.resource]))
  {
    var after := nd.(pc := Idle, queue := nd.queue + [nd.pc.resource]);
    assert Lost(after) == Lost(nd) by {
      assert forall t :: Stays(after, t) <==> Stays(nd, t);
    }
    LostIsDownloading(allowed, resources, nd);
  }

  /** A lease that is being acquired is granted, or given up. */
  lemma SettleLease(cfg: Config, events: seq<Event>, k: nat) returns (longer: seq<Event>)
    requires Goes(cfg, events, events, k)
    ensures Goes(cfg, events, longer, k) && NodeAt(cfg, longer, k).pc == Idle
  {
    NodeFacts(cfg, events, k);
    var nd := NodeAt(cfg, events, k);
    longer := events;
    if nd.pc.Acquiring? {
      if nd.pc.i < cfg.allowed {
        var id, now;
        longer, id, now := Granted(cfg, events, k);
        RegisteredFinishable(cfg.allowed, cfg.resources[k], nd, id, now);
      } else {
        longer := NodeMoves(cfg, events, k, GiveUp(k));
        GaveUpFinishable(cfg.allowed, cfg.resources[k], nd);
      }
    }
  }

  predicate Over(p: Phase) {
    p == Cleaned(true) || p == Broken(true)
  }

  /** Only thread t has gone on. */
  predicate OnlyThread(nd: Node, after: Node, t: nat) {
    && after.pc == nd.pc && after.queue == nd.queue && after.loop == nd.loop
    && t < |nd.threads| == |after.threads|
    && forall u :: 0 <= u < |nd.threads| && u != t ==> after.threads[u] == nd.threads[u]
  }

  lemma CountedFinishable(allowed: nat, resources: seq<string>, nd: Node, t: nat, n: nat)
    requires Finishable(allowed, resources, nd) && nd.pc == Idle
    requires t < |nd.threads| && nd.threads[t].phase == Pulling
    ensures var after := CountPulled(WithPhase(nd, t, Counted), n);
      Finishable(allowed, resources, after) && OnlyThread(nd, after, t) && after.threads[t].phase == Counted
  {
    var after := CountPulled(WithPhase(nd, t, Counted), n);
    forall x | x in Lost(after) ensures x in Lost(nd) {
      var u :| 0 <= u < |after.threads| && Stays(after, u) && after.threads[u].resource == x;
      assert Stays(nd, u);
    }
    StillFinishable(allowed, resources, nd, after);
  }

  lemma CleanedFinishable(allowed: nat, resources: seq<string>, nd: Node, t: nat)
    requires Finishable(allowed, resources, nd) && nd.pc == Idle && OncePerResource(nd.threads)
    requires t < |nd.threads| && nd.threads[t].phase == Counted
    ensures var after := CleanedUp(nd, t);
      Finishable(allowed, resources, after) && OnlyThread(nd, after, t) && Over(after.threads[t].phase)
  {
    var after := CleanedUp(nd, t);
    forall x | x in Lost(after) ensures x in Lost(nd) {
      var u :| 0 <= u < |after.threads| && Stays(after, u) && after.threads[u].resource == x;
      assert u == t || nd.threads[if u < t then u else t].resource != nd.threads[if u < t then t else u].resource;
      assert Stays(nd, u);
    }
    StillFinishable(allowed, resources, nd, after);
  }

  /** A thread pulls, counts and cleans up. */
  lemma FinishThread(cfg: Config, events: seq<Event>, k: nat, t: nat) returns (longer: seq<Event>)
    requires Goes(cfg, events, events, k) && NodeAt(cfg, events, k).pc == Idle
    requires t < |NodeAt(cfg, events, k).threads|
    ensures Goes(cfg, events, longer, k) && OnlyThread(NodeAt(cfg, events, k), NodeAt(cfg, longer, k), t)
    ensures Over(NodeAt(cfg, longer, k).threads[t].phase)
  {
    longer := events;
    var nd := NodeAt(cfg, events, k);
    assert nd.threads[t].phase !in {Raised, Cleaned(false), Broken(false)};
    if nd.threads[t].phase == Pulling {
      CountedFinishable(cfg.allowed, cfg.resources[k], nd, t, |cfg.resources[k]|);
      longer := NodeMoves(cfg, longer, k, Pulled(k, t));
    }
    nd := NodeAt(cfg, longer, k);
    if nd.threads[t].phase == Counted {
      NodeFacts(cfg, longer, k);
      CleanedFinishable(cfg.allowed, cfg.resources[k], nd, t);
      longer := NodeMoves(cfg, longer, k, Cleanup(k, t));
    }
  }

  predicate AllOver(nd: Node, n: nat)
    requires n <= |nd.threads|
  {
    forall t :: 0 <= t < n ==> Over(nd.threads[t].phase)
  }

  lemma {:induction false} FinishThreads(cfg: Config, events: seq<Event>, k: nat, n: nat) returns (longer: seq<Event>)
    requires Goes(cfg, events, events, k) && NodeAt(cfg, events, k).pc == Idle
    requires n <= |NodeAt(cfg, events, k).threads|
    ensures Goes(cfg, events, longer, k)
    ensures var nd, after := NodeAt(cfg, events, k), NodeAt(cfg, longer, k);
      && after.pc == Idle && after.queue == nd.queue && |after.threads| == |nd.threads| && AllOver(after, n)
  {
    longer := events;
    if n > 0 {
      longer := FinishThreads(cfg, events, k, n - 1);
      var more := FinishThread(cfg, longer, k, n - 1);
      longer := more;
    }
  }

  /** Node k has nothing in hand and no thread that goes on. */
  ghost predicate AtRest(cfg: Config, events: seq<Event>, k: nat) {
    && Goes(cfg, events, events, k)
    && NodeAt(cfg, events, k).pc == Idle && AllOver(NodeAt(cfg, events, k), |NodeAt(cfg, events, k).threads|)
  }

  lemma RestIsLost(allowed: nat, resources: seq<string>, nd: Node)
    requires NodeInv(allowed, resources, nd) && AllOver(nd, |nd.threads|)
    ensures nd.downloading == Lost(nd)
  {
    assert forall r :: r !in nd.handles;
    forall x | x in nd.downloading ensures x in Lost(nd) {
      var t :| 0 <= t < |nd.threads| && InSet(nd.threads[t].phase) && nd.threads[t].resource == x;
      LostMember(nd, t);
    }
  }

  /** The head of the queue is free: it is picked. */
  lemma PickNext(cfg: Config, events: seq<Event>, k: nat) returns (longer: seq<Event>)
    requires AtRest(cfg, events, k) && NodeAt(cfg, events, k).queue != []
    ensures Goes(cfg, events, longer, k)
    ensures var nd := NodeAt(cfg, events, k);
      NodeAt(cfg, longer, k) == nd.(queue := nd.queue[1..], pc := Acquiring(nd.queue[0], 0))
  {
    NodeFacts(cfg, events, k);
    var nd := NodeAt(cfg, events, k);
    RestIsLost(cfg.allowed, cfg.resources[k], nd);
    HeadIsPicked(cfg.allowed, nd);
    longer := Begins(cfg, events, k);
    PickedFinishable(cfg.allowed, cfg.resources[k], nd, NodeAt(cfg, longer, k));
  }

  lemma HeadIsPicked(allowed: nat, nd: Node)
    requires nd.queue != [] && nd.queue[0] !in nd.downloading && |nd.downloading| <= allowed
    ensures BeginNode(allowed, nd) == nd.(queue := nd.queue[1..], pc := Acquiring(nd.queue[0], 0))
  {
    PickFirstFree(nd.queue, nd.downloading, 0, 0);
    assert nd.queue[1..] + nd.queue[..0] == nd.queue[1..];
  }

  /** And pulled, to the end. */
  lemma PullNext(cfg: Config, events: seq<Event>, k: nat) returns (longer: seq<Event>)
    requires AtRest(cfg, events, k) && NodeAt(cfg, events, k).queue != []
    ensures events <= longer && AtRest(cfg, longer, k)
    ensures |NodeAt(cfg, longer, k).queue| < |NodeAt(cfg, events, k).queue|
  {
    var nd := NodeAt(cfg, events, k);
    var picked := PickNext(cfg, events, k);
    NodeFacts(cfg, picked, k);
    var granted, id, now := Granted(cfg, picked, k);
    RegisteredFinishable(cfg.allowed, cfg.resources[k], NodeAt(cfg, picked, k), id, now);
    longer := FinishThread(cfg, granted, k, |nd.threads|);
  }

  lemma PickedFinishable(allowed: nat, resources: seq<string>, nd: Node, picked: Node)
    requires Finishable(allowed, resources, nd) && nd.queue != [] && picked.pc.Acquiring?
    requires picked == nd.(queue := nd.queue[1..], pc := picked.pc)
    ensures Finishable(allowed, resources, picked)
  {
    assert Lost(picked) == Lost(nd) by {
      assert forall t :: Stays(picked, t) <==> Stays(nd, t);
    }
  }

  lemma {:induction false} PullAll(cfg: Config, events: seq<Event>, k: nat) returns (longer: seq<Event>)
    requires AtRest(cfg, events, k)
    ensures events <= longer && AtRest(cfg, longer, k) && NodeAt(cfg, longer, k).queue == []
    decreases |NodeAt(cfg, events, k).queue|
  {
    longer := events;
    if NodeAt(cfg, events, k).queue != [] {
      longer := PullNext(cfg, events, k);
      longer := PullAll(cfg, longer, k);
    }
  }

  lemma {:induction false} AllCounted(threads: seq<Thread>)
    requires forall t :: 0 <= t < |threads| ==> PulledOk(threads[t].phase)
    ensures CountOk(threads) == |threads|
  {
    if threads != [] {
      AllCounted(threads[..|threads| - 1]);
    }
  }

  lemma RestIsDone(cfg: Config, events: seq<Event>, k: nat)
    requires AtRest(cfg, events, k) && NodeAt(cfg, events, k).queue == []
    ensures NodeAt(cfg, events, k).done
  {
    NodeFacts(cfg, events, k);
    var nd := NodeAt(cfg, events, k);
    DoneBound(cfg.allowed, cfg.resources[k], nd);
    AllCounted(nd.threads);
  }

  // ---- the theorems ------------------------------------------------------

  /** Some continuation of the run sets the completion flag of node k. */
  ghost predicate CanFinish(cfg: Config, events: seq<Event>, k: nat) {
    exists longer :: DoneBy(cfg, events, longer, k)
  }

  ghost predicate DoneBy(cfg: Config, events: seq<Event>, longer: seq<Event>, k: nat) {
    && events <= longer && Run(cfg, longer).Some? && k < |Run(cfg, longer).value.nodes|
    && NodeAt(cfg, longer, k).done
  }

  /** In every reachable state: the node can still report completion exactly when it
      has something to pull, no pull has failed, and, unless its queue is empty, its
      event loop goes on and the resources whose places are lost are at most as many
      as may be downloading and none of those queued. */
  lemma CanFinishIff(cfg: Config, events: seq<Event>, k: nat)
    requires Run(cfg, events).Some? && k < |cfg.resources|
    ensures |Run(cfg, events).value.nodes| == |cfg.resources|
    ensures CanFinish(cfg, events, k) <==> Finishable(cfg.allowed, cfg.resources[k], NodeAt(cfg, events, k))
  {
    NodeFacts(cfg, events, k);
    if Finishable(cfg.allowed, cfg.resources[k], NodeAt(cfg, events, k)) {
      var settled := SettleLease(cfg, events, k);
      var rested := FinishThreads(cfg, settled, k, |NodeAt(cfg, settled, k).threads|);
      var longer := PullAll(cfg, rested, k);
      RestIsDone(cfg, longer, k);
      assert DoneBy(cfg, events, longer, k);
    }
    if longer :| DoneBy(cfg, events, longer, k) {
      NodeFacts(cfg, longer, k);
      DoneWasFinishable(cfg, events, longer, k);
    }
  }

  // ---- a node that hangs -------------------------------------------------

  /** No renewal is due more than fifteen seconds from now. */
  ghost predicate ShortTimers(now: nat, nd: Node) {
    forall r :: r in nd.handles ==> nd.handles[r].due <= now + RENEW_AFTER
  }

  lemma ShortTimersStep(cfg: Config, k: nat, sv: Service, nd: Node, e: Event)
    requires k < |cfg.resources| && CanStep(cfg, sv, nd, e) && ShortTimers(sv.now, nd)
    ensures ShortTimers(StepService(sv, nd, e).now, StepNode(cfg, k, sv, nd, e))
  {
  }

  lemma {:induction false} ShortTimersReachable(cfg: Config, events: seq<Event>, k: nat)
    requires Run(cfg, events).Some? && k < |Run(cfg, events).value.nodes|
    ensures ShortTimers(Run(cfg, events).value.sv.now, NodeAt(cfg, events, k))
  {
    if events != [] {
      var front, e := events[..|events| - 1], events[|events| - 1];
      ShortTimersReachable(cfg, front, k);
      var s := Run(cfg, front).value;
      if !e.Tick? && e.k == k {
        ShortTimersStep(cfg, k, s.sv, s.nodes[k], e);
      }
    }
  }

  /** The node pulls on, with all that it downloads lost. */
  ghost predicate Hanging(allowed: nat, nd: Node) {
    && nd.pc == Idle && nd.loop == Looping && nd.queue != [] && |Lost(nd)| > allowed
    && forall t :: 0 <= t < |nd.threads| ==> nd.threads[t].phase == Pulling
  }

  /** Renewals that are due raise one after the other. */
  lemma {:induction false} AllRenewalsRaise(cfg: Config, events: seq<Event>, k: nat) returns (longer: seq<Event>)
    requires Run(cfg, events).Some? && k < |cfg.resources| == |Run(cfg, events).value.nodes|
    requires var nd := NodeAt(cfg, events, k);
      nd.loop == Looping && forall r :: r in nd.handles ==> nd.handles[r].due <= Run(cfg, events).value.sv.now
    ensures Run(cfg, longer).Some? && k < |Run(cfg, longer).value.nodes|
    ensures NodeAt(cfg, longer, k) == NodeAt(cfg, events, k).(handles := map[], leases := map[])
    decreases |NodeAt(cfg, events, k).handles|
  {
    NodeFacts(cfg, events, k);
    var nd := NodeAt(cfg, events, k);
    longer := events;
    if |nd.handles| > 0 {
      var r := Member(nd.handles.Keys);
      longer := NodeMoves(cfg, events, k, RenewError(k, r));
      ForgetSmaller(nd, r);
      longer := AllRenewalsRaise(cfg, longer, k);
    } else {
      assert nd.handles == map[];
      assert nd.leases.Keys == {};
      assert nd.leases == map[];
    }
  }

  lemma ForgetSmaller(nd: Node, r: string)
    requires r in nd.handles
    ensures |Forget(nd, r).handles| < |nd.handles|
  {
    assert Forget(nd, r).handles.Keys == nd.handles.Keys - {r};
  }

  lemma AllLost(allowed: nat, resources: seq<string>, nd: Node)
    requires NodeInv(allowed, resources, nd) && nd.handles == map[]
    ensures Lost(nd) == nd.downloading
  {
    forall x | x in nd.downloading ensures x in Lost(nd) {
      var t :| 0 <= t < |nd.threads| && InSet(nd.threads[t].phase) && nd.threads[t].resource == x;
      LostMember(nd, t);
    }
  }

  /** A node whose table lists more than allowed + 1 resources, more than allowed of
      them different, can come to a state in which nothing has failed, its loop goes on
      and yet it never reports completion: allowed + 1 renewals have raised. */
  lemma HangReachable(cfg: Config, k: nat) returns (events: seq<Event>)
    requires k < |cfg.resources| && cfg.allowed > 0
    requires |Elements(cfg.resources[k])| > cfg.allowed && |cfg.resources[k]| > cfg.allowed + 1
    ensures Run(cfg, events).Some? && |Run(cfg, events).value.nodes| == |cfg.resources|
    ensures Hanging(cfg.allowed, NodeAt(cfg, events, k)) && !CanFinish(cfg, events, k)
  {
    var loaded := LoadUp(cfg, k, cfg.allowed + 1);
    ShortTimersReachable(cfg, loaded, k);
    var due := TimePasses(cfg, loaded, RENEW_AFTER);
    events := AllRenewalsRaise(cfg, due, k);
    NodeFacts(cfg, events, k);
    var nd := NodeAt(cfg, events, k);
    AllLost(cfg.allowed, cfg.resources[k], nd);
    HangQueue(cfg.allowed, cfg.resources[k], nd);
    CanFinishIff(cfg, events, k);
  }

  lemma HangQueue(allowed: nat, resources: seq<string>, nd: Node)
    requires NodeInv(allowed, resources, nd) && nd.pc == Idle && |resources| > allowed + 1
    requires forall t :: 0 <= t < |nd.threads| ==> nd.threads[t].phase == Pulling
    ensures nd.queue != []
  {
    DoneBound(allowed, resources, nd);
    ThreadsInSet(nd.threads);
  }

  lemma {:induction false} ThreadsInSet(threads: seq<Thread>)
    requires OncePerResource(threads) && forall t :: 0 <= t < |threads| ==> InSet(threads[t].phase)
    ensures |Downloading(threads)| == |threads|
  {
    if threads == [] {
      assert Downloading(threads) == {};
    } else {
      var n := |threads| - 1;
      ThreadsInSet(threads[..n]);
      DownloadingSnoc(threads);
    }
  }

  lemma DownloadingSnoc(threads: seq<Thread>)
    requires threads != [] && OncePerResource(threads) && forall t :: 0 <= t < |threads| ==> InSet(threads[t].phase)
    ensures var n := |threads| - 1;
      Downloading(threads) == Downloading(threads[..n]) + {threads[n].resource} &&
      threads[n].resource !in Downloading(threads[..n])
  {
    var n := |threads| - 1;
    forall x ensures x in Downloading(threads) <==> x in Downloading(threads[..n]) || x == threads[n].resource {
      if x in Downloading(threads) {
        var t :| 0 <= t < |threads| && InSet(threads[t].phase) && threads[t].resource == x;
        assert t < n ==> threads[..n][t] == threads[t];
      }
      if x in Downloading(threads[..n]) {
        var t :| 0 <= t < n && InSet(threads[..n][t].phase) && threads[..n][t].resource == x;
        assert threads[t].resource == x;
      }
    }
  }
}
