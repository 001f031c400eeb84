/** What every node keeps: no resource is lost, duplicated or downloaded twice
    at once, and the completion flag is never early (cascade/cascade.py). */
module CascadeNode {
  import opened Common
  import opened CascadeQueue
  import opened Cascade

  function InHand(pc: Pc): multiset<string> {
    match pc
    case Idle => multiset{}
    case Acquiring(r, _) => multiset{r}
  }

  function Started(threads: seq<Thread>): multiset<string> {
    if threads == [] then multiset{}
    else Started(threads[..|threads| - 1]) + multiset{threads[|threads| - 1].resource}
  }

  predicate PulledOk(p: Phase) {
    p.Counted? || (p.Cleaned? && p.ok) || (p.Broken? && p.ok)
  }

  function CountOk(threads: seq<Thread>): nat {
    if threads == [] then 0
    else CountOk(threads[..|threads| - 1]) + (if PulledOk(threads[|threads| - 1].phase) then 1 else 0)
  }

  /** Threads that have not left the downloading set. */
  predicate InSet(p: Phase) {
    !p.Cleaned?
  }

  ghost function Downloading(threads: seq<Thread>): set<string> {
    set t | 0 <= t < |threads| && InSet(threads[t].phase) :: threads[t].resource
  }

  ghost predicate OncePerResource(threads: seq<Thread>) {
    forall a, b :: 0 <= a < b < |threads| && InSet(threads[a].phase) && InSet(threads[b].phase) ==>
      threads[a].resource != threads[b].resource
  }

  predicate Unfinished(p: Phase) {
    p in {Pulling, Counted, Raised}
  }

  /** A held lease belongs to a thread that has not been cleaned up. */
  ghost predicate HandleHasThread(nd: Node, r: string)
    requires r in nd.handles
  {
    exists t :: 0 <= t < |nd.threads| && Unfinished(nd.threads[t].phase) &&
      nd.threads[t].resource == r && nd.threads[t].blob == nd.handles[r].blob
  }

  ghost predicate NodeInv(allowed: nat, resources: seq<string>, nd: Node) {
    && multiset(resources) == multiset(nd.queue) + InHand(nd.pc) + Started(nd.threads)
    && nd.downloading == Downloading(nd.threads) && OncePerResource(nd.threads)
    && |nd.downloading| <= allowed + 1
    && (nd.pc.Acquiring? ==> nd.pc.resource !in nd.downloading && |nd.downloading| <= allowed && nd.pc.i <= allowed)
    && nd.count == CountOk(nd.threads)
    && (nd.done ==> nd.count == |resources|)
    && nd.handles.Keys == nd.leases.Keys
    && (forall r :: r in nd.handles ==> HandleHasThread(nd, r))
  }

  // ---- threads ---------------------------------------------------------

  lemma {:induction false} StartedSize(threads: seq<Thread>)
    ensures |Started(threads)| == |threads| && CountOk(threads) <= |threads|
  {
    if threads != [] {
      StartedSize(threads[..|threads| - 1]);
    }
  }

  function Rephased(threads: seq<Thread>, t: nat, p: Phase): seq<Thread>
    requires t < |threads|
  {
    threads[t := threads[t].(phase := p)]
  }

  lemma RephasedFront(threads: seq<Thread>, t: nat, p: Phase)
    requires t < |threads|
    ensures var n := |threads| - 1;
      Rephased(threads, t, p)[..n] == if t < n then Rephased(threads[..n], t, p) else threads[..n]
  {
  }

  lemma {:induction false} PhaseKeepsStarted(threads: seq<Thread>, t: nat, p: Phase)
    requires t < |threads|
    ensures Started(Rephased(threads, t, p)) == Started(threads)
  {
    RephasedFront(threads, t, p);
    if t < |threads| - 1 {
      PhaseKeepsStarted(threads[..|threads| - 1], t, p);
    }
  }

  lemma {:induction false} PhaseMovesCount(threads: seq<Thread>, t: nat, p: Phase)
    requires t < |threads|
    ensures CountOk(Rephased(threads, t, p)) ==
      CountOk(threads) - (if PulledOk(threads[t].phase) then 1 else 0) + (if PulledOk(p) then 1 else 0)
  {
    RephasedFront(threads, t, p);
    if t < |threads| - 1 {
      PhaseMovesCount(threads[..|threads| - 1], t, p);
    }
  }

  lemma {:induction false} AllOk(threads: seq<Thread>, t: nat)
    requires t < |threads| && CountOk(threads) == |threads|
    ensures PulledOk(threads[t].phase)
  {
    var n := |threads| - 1;
    StartedSize(threads[..n]);
    if t < n {
      AllOk(threads[..n], t);
    }
  }

  lemma DownloadingSame(threads: seq<Thread>, t: nat, p: Phase)
    requires t < |threads| && (InSet(threads[t].phase) <==> InSet(p))
    ensures Downloading(threads[t := threads[t].(phase := p)]) == Downloading(threads)
    ensures OncePerResource(threads) ==> OncePerResource(threads[t := threads[t].(phase := p)])
  {
    var after := threads[t := threads[t].(phase := p)];
    forall r ensures r in Downloading(after) <==> r in Downloading(threads) {
      if r in Downloading(threads) {
        var u :| 0 <= u < |threads| && InSet(threads[u].phase) && threads[u].resource == r;
        assert InSet(after[u].phase) && after[u].resource == r;
      }
      if r in Downloading(after) {
        var u :| 0 <= u < |after| && InSet(after[u].phase) && after[u].resource == r;
        assert InSet(threads[u].phase) && threads[u].resource == r;
      }
    }
  }

  lemma DownloadingLeaves(threads: seq<Thread>, t: nat, ok: bool)
    requires t < |threads| && InSet(threads[t].phase) && OncePerResource(threads)
    ensures Downloading(threads[t := threads[t].(phase := Cleaned(ok))]) == Downloading(threads) - {threads[t].resource}
    ensures OncePerResource(threads[t := threads[t].(phase := Cleaned(ok))])
    ensures threads[t].resource in Downloading(threads)
  {
    var after := threads[t := threads[t].(phase := Cleaned(ok))];
    forall r ensures r in Downloading(after) <==> r in Downloading(threads) && r != threads[t].resource {
      if r in Downloading(threads) && r != threads[t].resource {
        var u :| 0 <= u < |threads| && InSet(threads[u].phase) && threads[u].resource == r;
        assert InSet(after[u].phase) && after[u].resource == r;
      }
      if r in Downloading(after) {
        var u :| 0 <= u < |after| && InSet(after[u].phase) && after[u].resource == r;
        assert u != t && InSet(threads[u].phase) && threads[u].resource == r;
        assert threads[if u < t then u else t].resource != threads[if u < t then t else u].resource;
      }
    }
  }

  lemma DownloadingJoins(threads: seq<Thread>, r: string, blob: nat)
    requires OncePerResource(threads) && r !in Downloading(threads)
    ensures Downloading(threads + [Thread(r, blob, Pulling)]) == Downloading(threads) + {r}
    ensures OncePerResource(threads + [Thread(r, blob, Pulling)])
  {
    var after := threads + [Thread(r, blob, Pulling)];
    forall a | 0 <= a < |threads| && InSet(threads[a].phase) ensures threads[a].resource != r {
      assert threads[a].resource in Downloading(threads);
    }
    forall x ensures x in Downloading(after) <==> x in Downloading(threads) || x == r {
      if x == r {
        assert after[|threads|].resource == r && InSet(after[|threads|].phase);
      }
      if x in Downloading(threads) {
        var u :| 0 <= u < |threads| && InSet(threads[u].phase) && threads[u].resource == x;
        assert after[u] == threads[u];
      }
    }
  }

  // ---- steps -----------------------------------------------------------

  lemma HandlesKept(nd: Node, after: Node)
    requires forall r :: r in nd.handles ==> HandleHasThread(nd, r)
    requires forall r :: r in after.handles ==> r in nd.handles && after.handles[r].blob == nd.handles[r].blob
    requires nd.threads <= after.threads
    ensures forall r :: r in after.handles ==> HandleHasThread(after, r)
  {
    forall r | r in after.handles ensures HandleHasThread(after, r) {
      var t :| 0 <= t < |nd.threads| && Unfinished(nd.threads[t].phase) &&
        nd.threads[t].resource == r && nd.threads[t].blob == nd.handles[r].blob;
      assert after.threads[t] == nd.threads[t];
    }
  }

  /** Steps that leave the threads alone. */
  lemma ThreadsAlone(allowed: nat, resources: seq<string>, nd: Node, after: Node)
    requires NodeInv(allowed, resources, nd)
    requires after.threads == nd.threads && after.downloading == nd.downloading
    requires after.count == nd.count && after.done == nd.done
    requires multiset(after.queue) + InHand(after.pc) == multiset(nd.queue) + InHand(nd.pc)
    requires after.pc.Acquiring? ==>
      after.pc.resource !in nd.downloading && |nd.downloading| <= allowed && after.pc.i <= allowed
    requires after.handles.Keys == after.leases.Keys
    requires forall r :: r in after.handles ==> r in nd.handles && after.handles[r].blob == nd.handles[r].blob
    ensures NodeInv(allowed, resources, after)
  {
    HandlesKept(nd, after);
  }

  lemma BeginInv(allowed: nat, resources: seq<string>, nd: Node)
    requires NodeInv(allowed, resources, nd) && nd.queue != [] && nd.pc == Idle
    ensures NodeInv(allowed, resources, BeginNode(allowed, nd))
  {
    var after := BeginNode(allowed, nd);
    var (r, q) := Pick(nd.queue, {}, Still(nd.downloading), 0);
    PickIsFree(nd.queue, nd.downloading);
    assert r.Some? ==> r.value !in nd.downloading;
    assert after.pc.Acquiring? ==> r == Some(after.pc.resource);
    ThreadsAlone(allowed, resources, nd, after);
  }

  lemma RegisteredInv(allowed: nat, resources: seq<string>, nd: Node, id: nat, now: nat)
    requires NodeInv(allowed, resources, nd) && nd.pc.Acquiring?
    ensures NodeInv(allowed, resources, Registered(nd, id, now))
  {
    var after := Registered(nd, id, now);
    DownloadingJoins(nd.threads, nd.pc.resource, nd.pc.i);
    assert after.threads[..|nd.threads|] == nd.threads;
    RegisteredHandles(nd, id, now);
  }

  lemma RegisteredHandles(nd: Node, id: nat, now: nat)
    requires nd.pc.Acquiring? && forall r :: r in nd.handles ==> HandleHasThread(nd, r)
    ensures forall r :: r in Registered(nd, id, now).handles ==> HandleHasThread(Registered(nd, id, now), r)
  {
    var after := Registered(nd, id, now);
    var r := nd.pc.resource;
    forall x | x in after.handles ensures HandleHasThread(after, x) {
      if x == r {
        assert after.threads[|nd.threads|] == Thread(r, nd.pc.i, Pulling);
      } else {
        var t :| 0 <= t < |nd.threads| && Unfinished(nd.threads[t].phase) &&
          nd.threads[t].resource == x && nd.threads[t].blob == nd.handles[x].blob;
        assert after.threads[t] == nd.threads[t];
      }
    }
  }

  lemma PhaseHandles(nd: Node, t: nat, p: Phase)
    requires t < |nd.threads| && p in {Counted, Raised} && forall r :: r in nd.handles ==> HandleHasThread(nd, r)
    ensures forall r :: r in nd.handles ==> HandleHasThread(WithPhase(nd, t, p), r)
  {
    var after := WithPhase(nd, t, p);
    forall r | r in nd.handles ensures HandleHasThread(after, r) {
      var u :| 0 <= u < |nd.threads| && Unfinished(nd.threads[u].phase) &&
        nd.threads[u].resource == r && nd.threads[u].blob == nd.handles[r].blob;
      assert Unfinished(after.threads[u].phase) && after.threads[u].resource == r;
    }
  }

  lemma PhaseInv(allowed: nat, resources: seq<string>, nd: Node, t: nat, p: Phase)
    requires NodeInv(allowed, resources, nd) && t < |nd.threads|
    requires nd.threads[t].phase == Pulling && p in {Counted, Raised}
    ensures var after := WithPhase(nd, t, p);
      NodeInv(allowed, resources, if p == Counted then CountPulled(after, |resources|) else after)
  {
    var after := WithPhase(nd, t, p);
    PhaseKeepsStarted(nd.threads, t, p);
    PhaseMovesCount(nd.threads, t, p);
    DownloadingSame(nd.threads, t, p);
    PhaseHandles(nd, t, p);
    PulledNeverDone(allowed, resources, nd, t);
    if p == Counted {
      HandlesKept(after, CountPulled(after, |resources|));
    }
  }

  /** While a thread pulls, not all resources have been pulled. */
  lemma PulledNeverDone(allowed: nat, resources: seq<string>, nd: Node, t: nat)
    requires NodeInv(allowed, resources, nd) && t < |nd.threads| && nd.threads[t].phase == Pulling
    ensures !nd.done
  {
    if nd.done {
      DoneBound(allowed, resources, nd);
      StartedSize(nd.threads);
      AllOk(nd.threads, t);
    }
  }

  /** No more resources can have been pulled than there are. */
  lemma DoneBound(allowed: nat, resources: seq<string>, nd: Node)
    requires NodeInv(allowed, resources, nd)
    ensures |resources| == |nd.queue| + |InHand(nd.pc)| + |nd.threads|
    ensures nd.count <= |nd.threads|
  {
    StartedSize(nd.threads);
    assert |multiset(resources)| == |multiset(nd.queue) + InHand(nd.pc) + Started(nd.threads)|;
  }

  lemma CleanupHandles(nd: Node, t: nat)
    requires t < |nd.threads| && forall x :: x in nd.handles ==> HandleHasThread(nd, x)
    ensures forall x :: x in CleanedUp(nd, t).handles ==> HandleHasThread(CleanedUp(nd, t), x)
  {
    var after := CleanedUp(nd, t);
    forall x | x in after.handles ensures HandleHasThread(after, x) {
      var u :| 0 <= u < |nd.threads| && Unfinished(nd.threads[u].phase) &&
        nd.threads[u].resource == x && nd.threads[u].blob == nd.handles[x].blob;
      assert u != t && after.threads[u] == nd.threads[u];
    }
  }

  lemma CleanupInv(allowed: nat, resources: seq<string>, nd: Node, t: nat)
    requires NodeInv(allowed, resources, nd) && t < |nd.threads| && nd.threads[t].phase in {Counted, Raised}
    ensures NodeInv(allowed, resources, CleanedUp(nd, t))
  {
    CleanupHandles(nd, t);
    var r, ok := nd.threads[t].resource, nd.threads[t].phase == Counted;
    if r in nd.handles {
      PhaseKeepsStarted(nd.threads, t, Cleaned(ok));
      PhaseMovesCount(nd.threads, t, Cleaned(ok));
      DownloadingLeaves(nd.threads, t, ok);
    } else {
      PhaseKeepsStarted(nd.threads, t, Broken(ok));
      PhaseMovesCount(nd.threads, t, Broken(ok));
      DownloadingSame(nd.threads, t, Broken(ok));
    }
  }

  lemma TryInv(cfg: Config, k: nat, sv: Service, nd: Node)
    requires k < |cfg.resources| && CanStep(cfg, sv, nd, Try(k)) && NodeInv(cfg.allowed, cfg.resources[k], nd)
    ensures NodeInv(cfg.allowed, cfg.resources[k], StepNode(cfg, k, sv, nd, Try(k)))
  {
    if Leased(sv, (nd.pc.resource, nd.pc.i)) {
      ThreadsAlone(cfg.allowed, cfg.resources[k], nd, StepNode(cfg, k, sv, nd, Try(k)));
    } else {
      RegisteredInv(cfg.allowed, cfg.resources[k], nd, sv.nextId, sv.now);
    }
  }

  lemma ForgetInv(allowed: nat, resources: seq<string>, nd: Node, r: string)
    requires NodeInv(allowed, resources, nd)
    ensures NodeInv(allowed, resources, Forget(nd, r))
  {
    ThreadsAlone(allowed, resources, nd, Forget(nd, r));
  }

  lemma RescheduledInv(allowed: nat, resources: seq<string>, nd: Node, r: string, due: nat)
    requires NodeInv(allowed, resources, nd) && r in nd.handles
    ensures NodeInv(allowed, resources, nd.(handles := nd.handles[r := nd.handles[r].(due := due)]))
  {
    ThreadsAlone(allowed, resources, nd, nd.(handles := nd.handles[r := nd.handles[r].(due := due)]));
  }

  lemma GiveUpInv(allowed: nat, resources: seq<string>, nd: Node)
    requires NodeInv(allowed, resources, nd) && nd.pc.Acquiring?
    ensures NodeInv(allowed, resources, nd.(pc := Idle, queue := nd.queue + [nd.pc.resource]))
  {
    ThreadsAlone(allowed, resources, nd, nd.(pc := Idle, queue := nd.queue + [nd.pc.resource]));
  }

  lemma StoppedInv(allowed: nat, resources: seq<string>, nd: Node)
    requires NodeInv(allowed, resources, nd)
    ensures NodeInv(allowed, resources, nd.(loop := Stopped))
  {
    ThreadsAlone(allowed, resources, nd, nd.(loop := Stopped));
  }

  /** What a renewal does to the node: reschedule or forget. */
  lemma RenewedIs(cfg: Config, k: nat, sv: Service, nd: Node, r: string)
    requires k < |cfg.resources| && CanStep(cfg, sv, nd, Renew(k, r))
    ensures StepNode(cfg, k, sv, nd, Renew(k, r)) ==
      if OwnLease(sv, (r, nd.handles[r].blob), nd.leases[r])
      then nd.(handles := nd.handles[r := nd.handles[r].(due := sv.now + RENEW_AFTER)])
      else Forget(nd, r)
  {
  }

  lemma RenewInv(cfg: Config, k: nat, sv: Service, nd: Node, r: string)
    requires k < |cfg.resources| && CanStep(cfg, sv, nd, Renew(k, r)) && NodeInv(cfg.allowed, cfg.resources[k], nd)
    ensures NodeInv(cfg.allowed, cfg.resources[k], StepNode(cfg, k, sv, nd, Renew(k, r)))
  {
    RenewedIs(cfg, k, sv, nd, r);
    if OwnLease(sv, (r, nd.handles[r].blob), nd.leases[r]) {
      RescheduledInv(cfg.allowed, cfg.resources[k], nd, r, sv.now + RENEW_AFTER);
    } else {
      ForgetInv(cfg.allowed, cfg.resources[k], nd, r);
    }
  }

  lemma NodeStepInv(cfg: Config, k: nat, sv: Service, nd: Node, e: Event)
    requires k < |cfg.resources| && CanStep(cfg, sv, nd, e) && NodeInv(cfg.allowed, cfg.resources[k], nd)
    requires !e.Tick? ==> e.k == k
    ensures NodeInv(cfg.allowed, cfg.resources[k], StepNode(cfg, k, sv, nd, e))
  {
    match e
    case Begin(_) => BeginInv(cfg.allowed, cfg.resources[k], nd);
    case Try(_) => TryInv(cfg, k, sv, nd);
    case Pulled(_, t) => PhaseInv(cfg.allowed, cfg.resources[k], nd, t, Counted);
    case PullFailed(_, t) => PhaseInv(cfg.allowed, cfg.resources[k], nd, t, Raised);
    case Cleanup(_, t) => CleanupInv(cfg.allowed, cfg.resources[k], nd, t);
    case Tick =>
    case GiveUp(_) => GiveUpInv(cfg.allowed, cfg.resources[k], nd);
    case Renew(_, r) => RenewInv(cfg, k, sv, nd, r);
    case RenewError(_, r) => ForgetInv(cfg.allowed, cfg.resources[k], nd, r);
    case Stop(_) => StoppedInv(cfg.allowed, cfg.resources[k], nd);
  }

  // ---- over whole runs -------------------------------------------------

  ghost predicate NodesInv(cfg: Config, s: State) {
    && |s.nodes| == |cfg.resources|
    && forall k :: 0 <= k < |s.nodes| ==> NodeInv(cfg.allowed, cfg.resources[k], s.nodes[k])
  }

  lemma NodesStep(cfg: Config, s: State, e: Event)
    requires NodesInv(cfg, s) && Enabled(cfg, s, e)
    ensures NodesInv(cfg, Next(cfg, s, e))
  {
    if !e.Tick? {
      var k := NodeOf(e);
      assert NodeInv(cfg.allowed, cfg.resources[k], s.nodes[k]);
      NodeStepInv(cfg, k, s.sv, s.nodes[k], e);
    }
  }

  lemma StartInv(allowed: nat, resources: seq<string>)
    ensures NodeInv(allowed, resources, StartNode(resources))
  {
  }

  lemma {:induction false} NodesInvReachable(cfg: Config, events: seq<Event>)
    requires Run(cfg, events).Some?
    ensures NodesInv(cfg, Run(cfg, events).value)
  {
    if events == [] {
      forall k | 0 <= k < |cfg.resources|
        ensures NodeInv(cfg.allowed, cfg.resources[k], Init(cfg).nodes[k])
      {
        StartInv(cfg.allowed, cfg.resources[k]);
      }
    } else {
      var front := events[..|events| - 1];
      NodesInvReachable(cfg, front);
      NodesStep(cfg, Run(cfg, front).value, events[|events| - 1]);
    }
  }

  /** In every reachable state of every node: each resource read from the table
      is queued, about to be leased, or in the hands of exactly one thread;
      no two live threads share a resource; and at most allowed + 1 downloads
      are in flight. */
  lemma Conservation(cfg: Config, events: seq<Event>, k: nat)
    requires Run(cfg, events).Some? && k < |cfg.resources|
    ensures |Run(cfg, events).value.nodes| == |cfg.resources|
    ensures var nd := Run(cfg, events).value.nodes[k];
      && multiset(cfg.resources[k]) == multiset(nd.queue) + InHand(nd.pc) + Started(nd.threads)
      && OncePerResource(nd.threads)
      && nd.downloading == Downloading(nd.threads)
      && |nd.downloading| <= cfg.allowed + 1
  {
    NodesInvReachable(cfg, events);
    assert NodeInv(cfg.allowed, cfg.resources[k], Run(cfg, events).value.nodes[k]);
  }

  /** The completion flag: it holds only when every resource of the node has
      been pulled, and so none is queued, in hand or failed. */
  lemma DoneMeansAllPulled(cfg: Config, events: seq<Event>, k: nat)
    requires Run(cfg, events).Some? && k < |cfg.resources|
    ensures |Run(cfg, events).value.nodes| == |cfg.resources|
    ensures var nd := Run(cfg, events).value.nodes[k];
      nd.done ==>
        && nd.queue == [] && nd.pc == Idle
        && Started(nd.threads) == multiset(cfg.resources[k])
        && forall t :: 0 <= t < |nd.threads| ==> PulledOk(nd.threads[t].phase)
  {
    NodesInvReachable(cfg, events);
    var nd := Run(cfg, events).value.nodes[k];
    assert NodeInv(cfg.allowed, cfg.resources[k], nd);
    if nd.done {
      DoneBound(cfg.allowed, cfg.resources[k], nd);
      forall t | 0 <= t < |nd.threads| ensures PulledOk(nd.threads[t].phase) {
        AllOk(nd.threads, t);
      }
      assert multiset(nd.queue) == multiset{};
    }
  }
}
