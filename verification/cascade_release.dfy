/** What keeps a slot, and what the end of a download gives back
    (cascade/cascade.py:227-252, 386-407). */
module CascadeRelease {
  import opened Common
  import opened Cascade
  import opened CascadeNode
  import opened CascadeLease
  import opened CascadeBounds

  /** The slot whose release the cleanup of thread t asks for, and the lease that it
      shows; None when the timer is gone and the cleanup raises first. */
  function Asked(nd: Node, t: nat): Option<(Slot, nat)>
    requires t < |nd.threads|
  {
    var th := nd.threads[t];
    if th.resource in nd.handles && th.resource in nd.leases
    then Some(((th.resource, th.blob), nd.leases[th.resource]))
    else None
  }

  /** All other slots are as before. */
  ghost predicate OnlySlot(sv: Service, sv': Service, slot: Slot) {
    forall x: Slot :: x != slot ==> (x in sv'.leases <==> x in sv.leases) && (x in sv.leases ==> sv'.leases[x] == sv.leases[x])
  }

  /** A cleanup frees exactly the slot that it asks for, and that only with the lease
      under which the service has granted it. */
  lemma CleanupFrees(cfg: Config, k: nat, sv: Service, nd: Node, t: nat)
    requires CanStep(cfg, sv, nd, Cleanup(k, t))
    ensures var sv' := StepService(sv, nd, Cleanup(k, t));
      && sv'.now == sv.now && sv'.nextId == sv.nextId
      && match Asked(nd, t)
         case None => sv' == sv
         case Some((slot, id)) =>
           OnlySlot(sv, sv', slot) && if OwnLease(sv, slot, id) then !Leased(sv', slot) else sv' == sv
  {
  }

  lemma SameThread(threads: seq<Thread>, u: nat, t: nat)
    requires OncePerResource(threads) && u < |threads| && t < |threads|
    requires InSet(threads[u].phase) && InSet(threads[t].phase) && threads[u].resource == threads[t].resource
    ensures u == t
  {
  }

  /** The lease of a thread at its end is the one its node holds for the resource. */
  lemma HandleIsOfThread(allowed: nat, resources: seq<string>, nd: Node, t: nat)
    requires NodeInv(allowed, resources, nd) && t < |nd.threads| && InSet(nd.threads[t].phase)
    requires nd.threads[t].resource in nd.handles
    ensures nd.handles[nd.threads[t].resource].blob == nd.threads[t].blob
    ensures nd.threads[t].resource in nd.leases
  {
    var r := nd.threads[t].resource;
    assert HandleHasThread(nd, r);
    var u :| 0 <= u < |nd.threads| && Unfinished(nd.threads[u].phase) &&
      nd.threads[u].resource == r && nd.threads[u].blob == nd.handles[r].blob;
    SameThread(nd.threads, u, t);
  }

  /** So, in every run, a download that ends with its renewal on time gives its slot
      back at once: whichever node tries the slot next is granted it. */
  lemma EndedDownloadFreesSlot(cfg: Config, events: seq<Event>, k: nat, t: nat, j: nat)
    requires Run(cfg, events).Some? && k < |cfg.resources| && j < |cfg.resources| && j != k
    requires |Run(cfg, events).value.nodes| == |cfg.resources|
    requires Enabled(cfg, Run(cfg, events).value, Cleanup(k, t))
    requires var s := Run(cfg, events).value;
      var th := s.nodes[k].threads[t];
      && OnTime(s.sv.now, s.nodes[k], th.resource)
      && s.nodes[j].pc == Acquiring(th.resource, th.blob)
    ensures var s := Run(cfg, events).value;
      var s' := Next(cfg, s, Cleanup(k, t));
      && Enabled(cfg, s', Try(j))
      && Next(cfg, s', Try(j)).nodes[j] == Registered(s.nodes[j], s.sv.nextId, s.sv.now)
  {
    NodesInvReachable(cfg, events);
    SystemInvReachable(cfg, events);
    var s := Run(cfg, events).value;
    var nd, r := s.nodes[k], s.nodes[k].threads[t].resource;
    assert NodeInv(cfg.allowed, cfg.resources[k], nd) && LeaseInv(cfg.allowed, s.sv, nd);
    HandleIsOfThread(cfg.allowed, cfg.resources[k], nd, t);
    assert Backed(s.sv, nd, r) && nd.handles[r].blob < cfg.allowed;
    CleanupFrees(cfg, k, s.sv, nd, t);
  }

  // ---- renewals --------------------------------------------------------

  /** Node k holds a slot of r, and its renewal is due in d seconds. */
  ghost predicate HoldsFor(cfg: Config, events: seq<Event>, k: nat, r: string, i: nat, d: nat) {
    Run(cfg, events).Some? && k < |cfg.resources| == |Run(cfg, events).value.nodes| &&
    var s := Run(cfg, events).value;
    && s.nodes[k].loop == Looping && HoldsSlot(s, k, r, i) && s.nodes[k].handles[r].due == s.sv.now + d
  }

  /** A renewal that is due can be made, and takes the lease to sixty seconds from now. */
  lemma RenewsWhenDue(cfg: Config, events: seq<Event>, k: nat, r: string, i: nat) returns (longer: seq<Event>)
    requires HoldsFor(cfg, events, k, r, i, 0)
    ensures longer == events + [Renew(k, r)] && HoldsFor(cfg, longer, k, r, i, 15)
    ensures var s, s' := Run(cfg, events).value, Run(cfg, longer).value;
      s'.sv.now == s.sv.now && (r, i) in s'.sv.leases && s'.sv.leases[(r, i)].expiry == s.sv.now + 60
  {
    SystemInvReachable(cfg, events);
    var s := Run(cfg, events).value;
    assert LeaseInv(cfg.allowed, s.sv, s.nodes[k]) && Backed(s.sv, s.nodes[k], r);
    longer := NodeMoves(cfg, events, k, Renew(k, r));
  }

  /** So a node whose event loop goes on can hold a slot for as long as it likes, with one
      renewal every fifteen seconds. */
  lemma {:induction false} HoldsOn(cfg: Config, events: seq<Event>, k: nat, r: string, i: nat, d: nat, n: nat)
      returns (longer: seq<Event>)
    requires HoldsFor(cfg, events, k, r, i, d)
    ensures events <= longer && HoldsFor(cfg, longer, k, r, i, if n == 0 then d else 15)
    ensures Run(cfg, longer).value.sv.now == Run(cfg, events).value.sv.now + if n == 0 then 0 else d + 15 * (n - 1)
    decreases n
  {
    longer := events;
    if n > 0 {
      longer := TimePasses(cfg, events, d);
      assert HoldsFor(cfg, longer, k, r, i, 0);
      var renewed := RenewsWhenDue(cfg, longer, k, r, i);
      longer := HoldsOn(cfg, renewed, k, r, i, 15, n - 1);
    }
  }

  /** An event loop that has ended renews nothing any more. */
  lemma StoppedRenewsNothing(cfg: Config, k: nat, sv: Service, nd: Node, e: Event, r: string)
    requires k < |cfg.resources| && CanStep(cfg, sv, nd, e) && nd.loop == Stopped && nd.pc == Idle
    ensures var after := StepNode(cfg, k, sv, nd, e);
      && after.loop == Stopped && after.pc == Idle
      && (r in after.handles ==> r in nd.handles && after.handles[r] == nd.handles[r])
  {
  }
}
