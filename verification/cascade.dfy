/** Image distribution (cascade/cascade.py): nodes that lease blobs as download
    slots from a shared storage service, as a step system with a clock. */
module Cascade {
  import opened Common
  import opened CascadeQueue

  const LEASE_DURATION: nat := 60
  const RENEW_AFTER: nat := 15

  // ---- the storage service ---------------------------------------------

  datatype Lease = Lease(id: nat, expiry: nat)

  /** Slot i of resource r is the blob named by the hash of r and i. */
  type Slot = (string, nat)

  datatype Service = Service(leases: map<Slot, Lease>, nextId: nat, now: nat)

  predicate Leased(sv: Service, slot: Slot) {
    slot in sv.leases && sv.now < sv.leases[slot].expiry
  }

  // ---- a node ----------------------------------------------------------

  /** The pending call_later of a held lease: the slot and when it is due. */
  datatype Timer = Timer(blob: nat, due: nat)

  /** Where a download thread is. `Counted` and `Raised` are past the pull but
      before the cleanup; a thread whose cleanup itself raises is `Broken`. */
  datatype Phase = Pulling | Counted | Raised | Cleaned(ok: bool) | Broken(ok: bool)

  datatype Thread = Thread(resource: string, blob: nat, phase: Phase)

  datatype Pc = Idle | Acquiring(resource: string, i: nat)

  datatype Loop = Looping | Stopped

  datatype Node = Node(
    queue: seq<string>, pc: Pc, downloading: set<string>,
    leases: map<string, nat>, handles: map<string, Timer>,
    threads: seq<Thread>, count: nat, done: bool, loop: Loop)

  /** `allowed` is the number of slots of every resource, and
      `resources[k]` is what node k reads from the table. */
  datatype Config = Config(allowed: nat, resources: seq<seq<string>>)

  datatype State = State(sv: Service, nodes: seq<Node>)

  function StartNode(resources: seq<string>): Node {
    Node(resources, Idle, {}, map[], map[], [], 0, false, Looping)
  }

  predicate HasRaised(nd: Node) {
    exists t :: 0 <= t < |nd.threads| && nd.threads[t].phase in {Raised, Cleaned(false), Broken(false)}
  }

  // ---- steps -----------------------------------------------------------

  datatype Event =
    | Tick
    | Begin(k: nat)
    | Try(k: nat)
    | GiveUp(k: nat)
    | Renew(k: nat, r: string)
    | RenewError(k: nat, r: string)
    | Pulled(k: nat, t: nat)
    | PullFailed(k: nat, t: nat)
    | Cleanup(k: nat, t: nat)
    | Stop(k: nat)

  /** When a step can be taken by node nd. */
  predicate CanStep(cfg: Config, sv: Service, nd: Node, e: Event) {
    match e
    case Tick => true
    case Begin(_) => nd.loop == Looping && nd.pc == Idle && !nd.done && nd.queue != []
    case Try(_) => nd.pc.Acquiring? && nd.pc.i < cfg.allowed
    case GiveUp(_) => nd.pc.Acquiring? && nd.pc.i == cfg.allowed
    case Renew(_, r) => nd.loop == Looping && r in nd.handles && r in nd.leases && nd.handles[r].due <= sv.now
    case RenewError(_, r) => nd.loop == Looping && r in nd.handles && r in nd.leases && nd.handles[r].due <= sv.now
    case Pulled(_, t) => t < |nd.threads| && nd.threads[t].phase == Pulling
    case PullFailed(_, t) => t < |nd.threads| && nd.threads[t].phase == Pulling
    case Cleanup(_, t) => t < |nd.threads| && nd.threads[t].phase in {Counted, Raised}
    case Stop(_) => nd.loop == Looping && nd.pc == Idle && (nd.done || HasRaised(nd))
  }

  /** One round of the direct download logic up to the choice of a resource.
      The check on the downloading set is a strict comparison. */
  function BeginNode(allowed: nat, nd: Node): Node
    requires nd.queue != []
  {
    if |nd.downloading| > allowed then nd
    else
      var (r, q) := Pick(nd.queue, {}, Still(nd.downloading), 0);
      match r
      case None => nd.(queue := q)
      case Some(x) => nd.(queue := q, pc := Acquiring(x, 0))
  }

  /** A lease has been acquired: record it, schedule its renewal, start the
      thread, whose constructor enters the downloading set. */
  function Registered(nd: Node, id: nat, now: nat): Node
    requires nd.pc.Acquiring?
  {
    var r := nd.pc.resource;
    nd.(pc := Idle,
        leases := nd.leases[r := id],
        handles := nd.handles[r := Timer(nd.pc.i, now + RENEW_AFTER)],
        downloading := nd.downloading + {r},
        threads := nd.threads + [Thread(r, nd.pc.i, Pulling)])
  }

  function WithPhase(nd: Node, t: nat, p: Phase): Node
    requires t < |nd.threads|
  {
    nd.(threads := nd.threads[t := nd.threads[t].(phase := p)])
  }

  /** _inc_resource_count */
  function CountPulled(nd: Node, n: nat): Node {
    nd.(count := nd.count + 1, done := nd.done || nd.count + 1 == n)
  }

  function Forget(nd: Node, r: string): Node {
    nd.(leases := nd.leases - {r}, handles := nd.handles - {r})
  }

  /** The finally block. Without a handle, `pop` raises before the lease is
      released and before the downloading set is updated. */
  function CleanedUp(nd: Node, t: nat): Node
    requires t < |nd.threads|
  {
    var r, ok := nd.threads[t].resource, nd.threads[t].phase == Counted;
    if r in nd.handles
    then WithPhase(Forget(nd, r).(downloading := nd.downloading - {r}), t, Cleaned(ok))
    else WithPhase(nd, t, Broken(ok))
  }

  function StepNode(cfg: Config, k: nat, sv: Service, nd: Node, e: Event): Node
    requires CanStep(cfg, sv, nd, e) && k < |cfg.resources|
  {
    match e
    case Tick => nd
    case Begin(_) => BeginNode(cfg.allowed, nd)
    case Try(_) =>
      if Leased(sv, (nd.pc.resource, nd.pc.i)) then nd.(pc := Acquiring(nd.pc.resource, nd.pc.i + 1))
      else Registered(nd, sv.nextId, sv.now)
    case GiveUp(_) => nd.(pc := Idle, queue := nd.queue + [nd.pc.resource])
    case Renew(_, r) =>
      if OwnLease(sv, (r, nd.handles[r].blob), nd.leases[r])
      then nd.(handles := nd.handles[r := nd.handles[r].(due := sv.now + RENEW_AFTER)])
      else Forget(nd, r)
    case RenewError(_, r) => Forget(nd, r)
    case Pulled(_, t) => CountPulled(WithPhase(nd, t, Counted), |cfg.resources[k]|)
    case PullFailed(_, t) => WithPhase(nd, t, Raised)
    case Cleanup(_, t) => CleanedUp(nd, t)
    case Stop(_) => nd.(loop := Stopped)
  }

  predicate OwnLease(sv: Service, slot: Slot, id: nat) {
    slot in sv.leases && sv.leases[slot].id == id
  }

  /** The service: a lease is granted on a blob without a live lease; renewal
      and release need the identifier of the last lease granted. */
  function StepService(sv: Service, nd: Node, e: Event): Service {
    match e
    case Try(_) =>
      if nd.pc.Acquiring? && !Leased(sv, (nd.pc.resource, nd.pc.i))
      then sv.(leases := sv.leases[(nd.pc.resource, nd.pc.i) := Lease(sv.nextId, sv.now + LEASE_DURATION)],
               nextId := sv.nextId + 1)
      else sv
    case Renew(_, r) =>
      if r in nd.handles && r in nd.leases && OwnLease(sv, (r, nd.handles[r].blob), nd.leases[r])
      then sv.(leases := sv.leases[(r, nd.handles[r].blob) := Lease(nd.leases[r], sv.now + LEASE_DURATION)])
      else sv
    case Cleanup(_, t) =>
      if t < |nd.threads| && nd.threads[t].resource in nd.handles && nd.threads[t].resource in nd.leases &&
         OwnLease(sv, (nd.threads[t].resource, nd.threads[t].blob), nd.leases[nd.threads[t].resource])
      then sv.(leases := sv.leases - {(nd.threads[t].resource, nd.threads[t].blob)})
      else sv
    case _ => sv
  }

  function NodeOf(e: Event): nat {
    match e
    case Tick => 0
    case _ => e.k
  }

  predicate Enabled(cfg: Config, s: State, e: Event) {
    e.Tick? || (NodeOf(e) < |s.nodes| && CanStep(cfg, s.sv, s.nodes[NodeOf(e)], e))
  }

  function Next(cfg: Config, s: State, e: Event): State
    requires |s.nodes| == |cfg.resources| && Enabled(cfg, s, e)
  {
    if e.Tick? then s.(sv := s.sv.(now := s.sv.now + 1))
    else
      var k := NodeOf(e);
      State(StepService(s.sv, s.nodes[k], e), s.nodes[k := StepNode(cfg, k, s.sv, s.nodes[k], e)])
  }

  function Init(cfg: Config): State {
    State(Service(map[], 0, 0), seq(|cfg.resources|, (k: int) requires 0 <= k < |cfg.resources| =>
      StartNode(cfg.resources[k])))
  }

  /** The state after a sequence of events, if each is possible in turn. */
  function Run(cfg: Config, events: seq<Event>): Option<State>
  {
    if events == [] then Some(Init(cfg))
    else
      match Run(cfg, events[..|events| - 1])
      case None => None
      case Some(s) =>
        var e := events[|events| - 1];
        if |s.nodes| == |cfg.resources| && Enabled(cfg, s, e) then Some(Next(cfg, s, e)) else None
  }
}
