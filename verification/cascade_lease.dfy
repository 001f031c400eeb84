/** The leases as a distributed semaphore (cascade/cascade.py): how many nodes
    can pull one resource at the same time. */
module CascadeLease {
  import opened Common
  import opened Cascade
  import opened CascadeNode

  /** Node nd is pulling resource r. */
  predicate IsPulling(nd: Node, r: string) {
    exists t :: 0 <= t < |nd.threads| && nd.threads[t].resource == r && nd.threads[t].phase == Pulling
  }

  /** The renewal of r is not overdue by the rest of the lease: a lease of 60
      seconds that is renewed after 15 tolerates a delay of 45. */
  predicate OnTime(now: nat, nd: Node, r: string) {
    r in nd.handles && now < nd.handles[r].due + (LEASE_DURATION - RENEW_AFTER)
  }

  predicate HoldsSlot(s: State, k: int, r: string, i: nat) {
    && 0 <= k < |s.nodes| && r in s.nodes[k].handles && r in s.nodes[k].leases
    && s.nodes[k].handles[r].blob == i && OnTime(s.sv.now, s.nodes[k], r)
  }

  /** The lease that the node believes to hold is the one the service keeps. */
  predicate Backed(sv: Service, nd: Node, r: string)
    requires r in nd.handles && r in nd.leases
  {
    var slot := (r, nd.handles[r].blob);
    slot in sv.leases &&
    sv.leases[slot] == Lease(nd.leases[r], nd.handles[r].due + (LEASE_DURATION - RENEW_AFTER))
  }

  ghost predicate LeaseInv(allowed: nat, sv: Service, nd: Node) {
    && nd.handles.Keys == nd.leases.Keys
    && (forall r :: r in nd.leases ==> nd.leases[r] < sv.nextId)
    && (forall r :: r in nd.handles ==> nd.handles[r].blob < allowed)
    && (forall r :: r in nd.handles && OnTime(sv.now, nd, r) ==> Backed(sv, nd, r))
  }

  ghost predicate IdsDiffer(a: Node, b: Node) {
    forall r, q :: r in a.leases && q in b.leases ==> a.leases[r] != b.leases[q]
  }

  ghost predicate OwnIdsDiffer(a: Node) {
    forall r, q :: r in a.leases && q in a.leases && r != q ==> a.leases[r] != a.leases[q]
  }

  ghost predicate SystemInv(cfg: Config, s: State) {
    && (forall k :: 0 <= k < |s.nodes| ==> LeaseInv(cfg.allowed, s.sv, s.nodes[k]) && OwnIdsDiffer(s.nodes[k]))
    && (forall j, k :: 0 <= j < |s.nodes| && 0 <= k < |s.nodes| && j != k ==> IdsDiffer(s.nodes[j], s.nodes[k]))
  }

  // ---- steps -----------------------------------------------------------

  /** What one step does to the service, as another node sees it: slots whose
      lease it holds on time are not touched. */
  lemma OthersBacked(cfg: Config, sv: Service, nd: Node, e: Event, other: Node)
    requires CanStep(cfg, sv, nd, e) && !e.Tick?
    requires LeaseInv(cfg.allowed, sv, nd) && LeaseInv(cfg.allowed, sv, other) && IdsDiffer(nd, other)
    ensures LeaseInv(cfg.allowed, StepService(sv, nd, e), other)
  {
    var sv' := StepService(sv, nd, e);
    forall r | r in other.handles && OnTime(sv'.now, other, r) ensures Backed(sv', other, r) {
      assert Backed(sv, other, r);
    }
  }

  /** A held lease keeps its resource in the downloading set. */
  lemma HandleIsDownloading(allowed: nat, resources: seq<string>, nd: Node, r: string)
    requires NodeInv(allowed, resources, nd) && r in nd.handles
    ensures r in nd.downloading
  {
    assert HandleHasThread(nd, r);
  }

  /** Acquiring a slot that has no live lease. */
  lemma TryBacked(cfg: Config, k: nat, sv: Service, nd: Node)
    requires k < |cfg.resources| && CanStep(cfg, sv, nd, Try(k))
    requires LeaseInv(cfg.allowed, sv, nd) && OwnIdsDiffer(nd) && nd.pc.resource !in nd.handles
    ensures LeaseInv(cfg.allowed, StepService(sv, nd, Try(k)), StepNode(cfg, k, sv, nd, Try(k)))
    ensures OwnIdsDiffer(StepNode(cfg, k, sv, nd, Try(k)))
  {
    var sv', nd' := StepService(sv, nd, Try(k)), StepNode(cfg, k, sv, nd, Try(k));
    forall r | r in nd'.handles && OnTime(sv'.now, nd', r) ensures Backed(sv', nd', r) {
      if r in nd.handles {
        assert Backed(sv, nd, r);
      }
    }
  }

  lemma RenewBacked(cfg: Config, k: nat, sv: Service, nd: Node, q: string)
    requires k < |cfg.resources| && CanStep(cfg, sv, nd, Renew(k, q))
    requires LeaseInv(cfg.allowed, sv, nd) && OwnIdsDiffer(nd)
    ensures LeaseInv(cfg.allowed, StepService(sv, nd, Renew(k, q)), StepNode(cfg, k, sv, nd, Renew(k, q)))
    ensures OwnIdsDiffer(StepNode(cfg, k, sv, nd, Renew(k, q)))
  {
    var sv', nd' := StepService(sv, nd, Renew(k, q)), StepNode(cfg, k, sv, nd, Renew(k, q));
    forall r | r in nd'.handles && OnTime(sv'.now, nd', r) ensures Backed(sv', nd', r) {
      if r != q {
        assert Backed(sv, nd, r);
      }
    }
  }

  /** A cleanup forgets the lease and the timer of its resource, or nothing. */
  lemma CleanupForgets(nd: Node, t: nat)
    requires t < |nd.threads|
    ensures var r, after := nd.threads[t].resource, CleanedUp(nd, t);
      if r in nd.handles then after.handles == nd.handles - {r} && after.leases == nd.leases - {r}
      else after.handles == nd.handles && after.leases == nd.leases
  {
  }

  lemma CleanupOwnIds(nd: Node, t: nat)
    requires t < |nd.threads| && OwnIdsDiffer(nd)
    ensures OwnIdsDiffer(CleanedUp(nd, t))
  {
    CleanupForgets(nd, t);
  }

  /** A cleanup frees at most the slot that it forgets. */
  lemma CleanupLeaves(cfg: Config, k: nat, sv: Service, nd: Node, t: nat, r: string)
    requires CanStep(cfg, sv, nd, Cleanup(k, t)) && OwnIdsDiffer(nd)
    requires r in nd.handles && r in nd.leases && r != nd.threads[t].resource && Backed(sv, nd, r)
    ensures Backed(StepService(sv, nd, Cleanup(k, t)), nd, r)
  {
  }

  lemma CleanupBacked(cfg: Config, k: nat, sv: Service, nd: Node, t: nat)
    requires k < |cfg.resources| && CanStep(cfg, sv, nd, Cleanup(k, t))
    requires LeaseInv(cfg.allowed, sv, nd) && OwnIdsDiffer(nd)
    ensures LeaseInv(cfg.allowed, StepService(sv, nd, Cleanup(k, t)), StepNode(cfg, k, sv, nd, Cleanup(k, t)))
    ensures OwnIdsDiffer(StepNode(cfg, k, sv, nd, Cleanup(k, t)))
  {
    CleanupForgets(nd, t);
    CleanupOwnIds(nd, t);
    var sv', nd' := StepService(sv, nd, Cleanup(k, t)), CleanedUp(nd, t);
    forall r | r in nd'.handles && OnTime(sv'.now, nd', r) ensures Backed(sv', nd', r) {
      assert OnTime(sv.now, nd, r) && Backed(sv, nd, r);
      CleanupLeaves(cfg, k, sv, nd, t, r);
    }
  }

  /** Steps that add no lease and free no slot. */
  lemma ShrinkBacked(cfg: Config, k: nat, sv: Service, nd: Node, e: Event)
    requires k < |cfg.resources| && CanStep(cfg, sv, nd, e) && !e.Tick? && !e.Try? && !e.Renew? && !e.Cleanup?
    requires LeaseInv(cfg.allowed, sv, nd) && OwnIdsDiffer(nd)
    ensures LeaseInv(cfg.allowed, StepService(sv, nd, e), StepNode(cfg, k, sv, nd, e))
    ensures OwnIdsDiffer(StepNode(cfg, k, sv, nd, e))
  {
    var sv', nd' := StepService(sv, nd, e), StepNode(cfg, k, sv, nd, e);
    forall r | r in nd'.handles && OnTime(sv'.now, nd', r) ensures Backed(sv', nd', r) {
      assert r in nd.handles && nd'.handles[r] == nd.handles[r] && Backed(sv, nd, r);
    }
  }

  lemma OwnBacked(cfg: Config, k: nat, sv: Service, nd: Node, e: Event)
    requires k < |cfg.resources| && CanStep(cfg, sv, nd, e) && !e.Tick? && e.k == k
    requires LeaseInv(cfg.allowed, sv, nd) && OwnIdsDiffer(nd) && NodeInv(cfg.allowed, cfg.resources[k], nd)
    ensures LeaseInv(cfg.allowed, StepService(sv, nd, e), StepNode(cfg, k, sv, nd, e))
    ensures OwnIdsDiffer(StepNode(cfg, k, sv, nd, e))
  {
    if e.Try? {
      if nd.pc.resource in nd.handles {
        HandleIsDownloading(cfg.allowed, cfg.resources[k], nd, nd.pc.resource);
      }
      TryBacked(cfg, k, sv, nd);
    } else if e.Renew? {
      RenewBacked(cfg, k, sv, nd, e.r);
    } else if e.Cleanup? {
      CleanupBacked(cfg, k, sv, nd, e.t);
    } else {
      ShrinkBacked(cfg, k, sv, nd, e);
    }
  }

  /** Lease identifiers are never shared between nodes. */
  lemma IdsStayDifferent(cfg: Config, k: nat, sv: Service, nd: Node, e: Event, other: Node)
    requires k < |cfg.resources| && CanStep(cfg, sv, nd, e) && !e.Tick?
    requires IdsDiffer(nd, other) && IdsDiffer(other, nd)
    requires forall r :: r in other.leases ==> other.leases[r] < sv.nextId
    ensures IdsDiffer(StepNode(cfg, k, sv, nd, e), other) && IdsDiffer(other, StepNode(cfg, k, sv, nd, e))
  {
    var nd' := StepNode(cfg, k, sv, nd, e);
    assert forall r :: r in nd'.leases ==> nd'.leases[r] == sv.nextId || (r in nd.leases && nd'.leases[r] == nd.leases[r]);
  }

  lemma TickBacked(cfg: Config, s: State)
    requires SystemInv(cfg, s)
    ensures SystemInv(cfg, s.(sv := s.sv.(now := s.sv.now + 1)))
  {
    var s' := s.(sv := s.sv.(now := s.sv.now + 1));
    forall k | 0 <= k < |s.nodes| ensures LeaseInv(cfg.allowed, s'.sv, s'.nodes[k]) {
      var nd := s.nodes[k];
      assert LeaseInv(cfg.allowed, s.sv, nd);
      forall r | r in nd.handles && OnTime(s'.sv.now, nd, r) ensures Backed(s'.sv, nd, r) {
        assert OnTime(s.sv.now, nd, r) && Backed(s.sv, nd, r);
      }
    }
  }

  lemma SystemStep(cfg: Config, s: State, e: Event)
    requires NodesInv(cfg, s) && SystemInv(cfg, s) && Enabled(cfg, s, e)
    ensures SystemInv(cfg, Next(cfg, s, e))
  {
    if e.Tick? {
      TickBacked(cfg, s);
    } else {
      NodeActs(cfg, s, e.k, e);
    }
  }

  lemma NodeActs(cfg: Config, s: State, k: nat, e: Event)
    requires NodesInv(cfg, s) && SystemInv(cfg, s) && !e.Tick? && e.k == k && Enabled(cfg, s, e)
    ensures SystemInv(cfg, Next(cfg, s, e))
  {
    var s', nd := Next(cfg, s, e), s.nodes[k];
    assert LeaseInv(cfg.allowed, s.sv, nd) && NodeInv(cfg.allowed, cfg.resources[k], nd);
    OwnBacked(cfg, k, s.sv, nd, e);
    forall j | 0 <= j < |s.nodes| && j != k
      ensures LeaseInv(cfg.allowed, s'.sv, s'.nodes[j]) && OwnIdsDiffer(s'.nodes[j])
      ensures IdsDiffer(s'.nodes[k], s'.nodes[j]) && IdsDiffer(s'.nodes[j], s'.nodes[k])
    {
      assert LeaseInv(cfg.allowed, s.sv, s.nodes[j]) && OwnIdsDiffer(s.nodes[j]);
      OthersBacked(cfg, s.sv, nd, e, s.nodes[j]);
      IdsStayDifferent(cfg, k, s.sv, nd, e, s.nodes[j]);
    }
    assert forall j :: 0 <= j < |s.nodes| && j != k ==> s'.nodes[j] == s.nodes[j];
  }

  lemma SystemInvNext(cfg: Config, events: seq<Event>)
    requires events != [] && Run(cfg, events).Some?
    requires var s := Run(cfg, events[..|events| - 1]).value; NodesInv(cfg, s) && SystemInv(cfg, s)
    ensures SystemInv(cfg, Run(cfg, events).value)
  {
    SystemStep(cfg, Run(cfg, events[..|events| - 1]).value, events[|events| - 1]);
  }

  lemma {:induction false} SystemInvReachable(cfg: Config, events: seq<Event>)
    requires Run(cfg, events).Some?
    ensures SystemInv(cfg, Run(cfg, events).value)
  {
    if events != [] {
      var front := events[..|events| - 1];
      NodesInvReachable(cfg, front);
      SystemInvReachable(cfg, front);
      SystemInvNext(cfg, events);
    }
  }

  // ---- the semaphore ---------------------------------------------------

  /** In every reachable state, a slot has at most one holder whose renewal is
      on time, whatever happened before. */
  lemma SlotHasOneHolder(cfg: Config, events: seq<Event>, j: int, k: int, r: string, i: nat)
    requires Run(cfg, events).Some?
    requires HoldsSlot(Run(cfg, events).value, j, r, i) && HoldsSlot(Run(cfg, events).value, k, r, i)
    ensures j == k && i < cfg.allowed
    ensures Leased(Run(cfg, events).value.sv, (r, i))
  {
    SystemInvReachable(cfg, events);
    var s := Run(cfg, events).value;
    assert LeaseInv(cfg.allowed, s.sv, s.nodes[j]) && LeaseInv(cfg.allowed, s.sv, s.nodes[k]);
    assert Backed(s.sv, s.nodes[j], r) && Backed(s.sv, s.nodes[k], r);
    assert j == k || IdsDiffer(s.nodes[j], s.nodes[k]);
  }

  lemma {:induction false} InjectionBound(ks: set<int>, slot: map<int, nat>, n: nat)
    requires ks <= slot.Keys
    requires forall k :: k in ks ==> slot[k] < n
    requires forall j, k :: j in ks && k in ks && slot[j] == slot[k] ==> j == k
    ensures |ks| <= n
    decreases n
  {
    if |ks| > 0 {
      var k := Member(ks);
      assert slot[k] < n;
      if x :| x in ks && slot[x] == n - 1 {
        InjectionBound(ks - {x}, slot, n - 1);
      } else {
        InjectionBound(ks, slot, n - 1);
      }
    }
  }

  /** The nodes that are pulling r with their renewal on time. */
  ghost function PullersOnTime(s: State, r: string): set<int> {
    set k | 0 <= k < |s.nodes| && IsPulling(s.nodes[k], r) && OnTime(s.sv.now, s.nodes[k], r)
  }

  ghost function Pullers(s: State, r: string): set<int> {
    set k | 0 <= k < |s.nodes| && IsPulling(s.nodes[k], r)
  }

  /** With N slots for a resource, no reachable state of any number of nodes
      has more than N on-time pullers of it. */
  lemma PullersOnTimeBounded(cfg: Config, events: seq<Event>, r: string)
    requires Run(cfg, events).Some?
    ensures |PullersOnTime(Run(cfg, events).value, r)| <= cfg.allowed
  {
    SystemInvReachable(cfg, events);
    var s := Run(cfg, events).value;
    var ks := PullersOnTime(s, r);
    var slot: map<int, nat> := map k | k in ks :: s.nodes[k].handles[r].blob;
    forall k | k in ks ensures HoldsSlot(s, k, r, slot[k]) && slot[k] < cfg.allowed {
      assert LeaseInv(cfg.allowed, s.sv, s.nodes[k]);
    }
    forall j, k | j in ks && k in ks && slot[j] == slot[k] ensures j == k {
      SlotHasOneHolder(cfg, events, j, k, r, slot[j]);
    }
    InjectionBound(ks, slot, cfg.allowed);
  }

  lemma AllPullersOnTime(cfg: Config, events: seq<Event>, r: string)
    requires Run(cfg, events).Some?
    requires forall k :: k in Pullers(Run(cfg, events).value, r) ==>
      OnTime(Run(cfg, events).value.sv.now, Run(cfg, events).value.nodes[k], r)
    ensures |Pullers(Run(cfg, events).value, r)| <= cfg.allowed
  {
    var s := Run(cfg, events).value;
    assert Pullers(s, r) == PullersOnTime(s, r);
    PullersOnTimeBounded(cfg, events, r);
  }

  // ---- renewals over a run -------------------------------------------------

  /** A node that pulls r has a renewal of it pending. */
  predicate PullIsHeld(nd: Node, r: string) {
    IsPulling(nd, r) ==> r in nd.handles
  }

  predicate TimerInTime(now: nat, nd: Node, r: string) {
    r in nd.handles ==> OnTime(now, nd, r)
  }

  /** No pending renewal of r is 45 seconds overdue. */
  predicate TimersInTime(s: State, r: string) {
    forall k :: 0 <= k < |s.nodes| ==> TimerInTime(s.sv.now, s.nodes[k], r)
  }

  /** In the whole run no renewal of r raises, and none comes 45 seconds late. */
  predicate RenewedInTime(cfg: Config, events: seq<Event>, r: string) {
    && (forall n :: 0 <= n < |events| ==> !(events[n].RenewError? && events[n].r == r))
    && (forall n :: 0 <= n <= |events| && Run(cfg, events[..n]).Some? ==>
          TimersInTime(Run(cfg, events[..n]).value, r))
  }

  /** A renewal in time succeeds, because the lease is backed. */
  lemma RenewKeeps(cfg: Config, k: nat, sv: Service, nd: Node, q: string, r: string)
    requires k < |cfg.resources| && CanStep(cfg, sv, nd, Renew(k, q)) && LeaseInv(cfg.allowed, sv, nd)
    requires TimerInTime(sv.now, nd, r) && PullIsHeld(nd, r)
    ensures PullIsHeld(StepNode(cfg, k, sv, nd, Renew(k, q)), r)
  {
    if q == r {
      assert Backed(sv, nd, r);
    }
  }

  /** The thread that cleans up was the only one for its resource. */
  lemma CleanupKeeps(nd: Node, t: nat, r: string)
    requires t < |nd.threads| && nd.threads[t].phase in {Counted, Raised}
    requires OncePerResource(nd.threads) && PullIsHeld(nd, r)
    ensures PullIsHeld(CleanedUp(nd, t), r)
  {
    var after := CleanedUp(nd, t);
    if u :| 0 <= u < |after.threads| && after.threads[u].resource == r && after.threads[u].phase == Pulling {
      assert u != t && nd.threads[u] == after.threads[u];
      assert nd.threads[if u < t then u else t].resource != nd.threads[if u < t then t else u].resource;
    }
  }

  lemma PhaseKeeps(nd: Node, t: nat, p: Phase, r: string)
    requires t < |nd.threads| && p in {Counted, Raised} && PullIsHeld(nd, r)
    ensures PullIsHeld(WithPhase(nd, t, p), r)
  {
    var after := WithPhase(nd, t, p);
    if u :| 0 <= u < |after.threads| && after.threads[u].resource == r && after.threads[u].phase == Pulling {
      assert u != t && nd.threads[u] == after.threads[u];
    }
  }

  lemma RegisterKeeps(nd: Node, id: nat, now: nat, r: string)
    requires nd.pc.Acquiring? && PullIsHeld(nd, r)
    ensures PullIsHeld(Registered(nd, id, now), r)
  {
    var after := Registered(nd, id, now);
    if r != nd.pc.resource {
      if u :| 0 <= u < |after.threads| && after.threads[u].resource == r && after.threads[u].phase == Pulling {
        assert nd.threads[u] == after.threads[u];
      }
    }
  }

  lemma NodeKeepsHeld(cfg: Config, k: nat, sv: Service, nd: Node, e: Event, r: string)
    requires k < |cfg.resources| && CanStep(cfg, sv, nd, e) && !(e.RenewError? && e.r == r) && (e.Tick? || e.k == k)
    requires LeaseInv(cfg.allowed, sv, nd) && OncePerResource(nd.threads)
    requires TimerInTime(sv.now, nd, r) && PullIsHeld(nd, r)
    ensures PullIsHeld(StepNode(cfg, k, sv, nd, e), r)
  {
    match e
    case Renew(_, q) => RenewKeeps(cfg, k, sv, nd, q, r);
    case Cleanup(_, t) => CleanupKeeps(nd, t, r);
    case Pulled(_, t) => PhaseKeeps(nd, t, Counted, r);
    case PullFailed(_, t) => PhaseKeeps(nd, t, Raised, r);
    case Try(_) =>
      if !Leased(sv, (nd.pc.resource, nd.pc.i)) {
        RegisterKeeps(nd, sv.nextId, sv.now, r);
      }
    case _ =>
  }

  lemma RenewedFront(cfg: Config, events: seq<Event>, r: string)
    requires events != [] && RenewedInTime(cfg, events, r)
    ensures RenewedInTime(cfg, events[..|events| - 1], r)
  {
    var front := events[..|events| - 1];
    forall n | 0 <= n <= |front| && Run(cfg, front[..n]).Some? ensures TimersInTime(Run(cfg, front[..n]).value, r) {
      assert front[..n] == events[..n];
    }
  }

  /** In a run whose renewals come in time no puller loses its lease. */
  lemma {:induction false} PullsStayHeld(cfg: Config, events: seq<Event>, r: string)
    requires Run(cfg, events).Some? && RenewedInTime(cfg, events, r)
    ensures forall k :: 0 <= k < |Run(cfg, events).value.nodes| ==> PullIsHeld(Run(cfg, events).value.nodes[k], r)
  {
    if events != [] {
      var front, e := events[..|events| - 1], events[|events| - 1];
      RenewedFront(cfg, events, r);
      PullsStayHeld(cfg, front, r);
      SystemInvReachable(cfg, front);
      NodesInvReachable(cfg, front);
      var s := Run(cfg, front).value;
      assert TimersInTime(s, r);
      if !e.Tick? {
        assert NodeInv(cfg.allowed, cfg.resources[e.k], s.nodes[e.k]) && LeaseInv(cfg.allowed, s.sv, s.nodes[e.k]);
        NodeKeepsHeld(cfg, e.k, s.sv, s.nodes[e.k], e, r);
      }
    }
  }

  /** So the semaphore holds: in a run in which no renewal of r raises and none comes
      45 seconds late, no more nodes pull r than it has slots. */
  lemma PullersBounded(cfg: Config, events: seq<Event>, r: string)
    requires Run(cfg, events).Some? && RenewedInTime(cfg, events, r)
    ensures |Pullers(Run(cfg, events).value, r)| <= cfg.allowed
  {
    PullsStayHeld(cfg, events, r);
    assert events[..|events|] == events;
    AllPullersOnTime(cfg, events, r);
  }
}
