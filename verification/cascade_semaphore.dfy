/** When the leases keep the number of nodes that pull one resource within the
    number of its slots (cascade/cascade.py). */
module CascadeSemaphore {
  import opened Common
  import opened CascadeQueue
  import opened Cascade
  import opened CascadeNode
  import opened CascadeLease
  import opened CascadeBounds

  /** The nodes whose table lists r. */
  ghost function Listing(cfg: Config, r: string): set<int> {
    set k | 0 <= k < |cfg.resources| && r in cfg.resources[k]
  }

  // ---- one node after the other ----------------------------------------

  /** Node nd has no download in flight and q to go. */
  predicate Ready(nd: Node, q: seq<string>) {
    nd.pc == Idle && nd.loop == Looping && nd.downloading == {} && nd.queue == q
  }

  /** Node nd has just started to pull r as its only download, q to go. */
  predicate PullingOne(nd: Node, r: string, q: seq<string>) {
    && nd.pc == Idle && nd.loop == Looping && nd.downloading == {r} && nd.queue == q
    && r in nd.handles && nd.threads != [] && Last(nd.threads).resource == r && Last(nd.threads).phase == Pulling
  }

  lemma PullHead(cfg: Config, events: seq<Event>, k: nat, q: seq<string>) returns (longer: seq<Event>)
    requires Run(cfg, events).Some? && k < |Run(cfg, events).value.nodes| == |cfg.resources| && cfg.allowed > 0
    requires q != [] && Ready(Run(cfg, events).value.nodes[k], q)
    ensures Run(cfg, longer).Some? && OthersSame(Run(cfg, events).value, Run(cfg, longer).value, k)
    ensures PullingOne(Run(cfg, longer).value.nodes[k], q[0], q[1..])
  {
    longer := Begins(cfg, events, k);
    PickFirstFree(q, {}, 0, 0);
    assert q[1..] + q[..0] == q[1..];
    var id, now;
    longer, id, now := Granted(cfg, longer, k);
  }

  lemma FinishHead(cfg: Config, events: seq<Event>, k: nat, r: string, q: seq<string>) returns (longer: seq<Event>)
    requires Run(cfg, events).Some? && k < |Run(cfg, events).value.nodes| == |cfg.resources|
    requires PullingOne(Run(cfg, events).value.nodes[k], r, q)
    ensures Run(cfg, longer).Some? && OthersSame(Run(cfg, events).value, Run(cfg, longer).value, k)
    ensures Ready(Run(cfg, longer).value.nodes[k], q)
  {
    var t := |Run(cfg, events).value.nodes[k].threads| - 1;
    longer := NodeMoves(cfg, events, k, Pulled(k, t));
    assert Run(cfg, longer).value.nodes[k].threads[t].phase == Counted;
    longer := NodeMoves(cfg, longer, k, Cleanup(k, t));
  }

  lemma {:induction false} Drain(cfg: Config, events: seq<Event>, k: nat, q: seq<string>, i: nat)
      returns (longer: seq<Event>)
    requires Run(cfg, events).Some? && k < |Run(cfg, events).value.nodes| == |cfg.resources| && cfg.allowed > 0
    requires i <= |q| && Ready(Run(cfg, events).value.nodes[k], q)
    ensures Run(cfg, longer).Some? && OthersSame(Run(cfg, events).value, Run(cfg, longer).value, k)
    ensures Ready(Run(cfg, longer).value.nodes[k], q[i..])
  {
    if i == 0 {
      longer := events;
      assert q[0..] == q;
    } else {
      longer := Drain(cfg, events, k, q, i - 1);
      longer := PullHead(cfg, longer, k, q[i - 1..]);
      assert q[i - 1..][1..] == q[i..];
      longer := FinishHead(cfg, longer, k, q[i - 1], q[i..]);
    }
  }

  lemma StartPulling(cfg: Config, events: seq<Event>, k: nat, r: string) returns (longer: seq<Event>)
    requires Run(cfg, events).Some? && k < |Run(cfg, events).value.nodes| == |cfg.resources| && cfg.allowed > 0
    requires r in cfg.resources[k] && Ready(Run(cfg, events).value.nodes[k], cfg.resources[k])
    ensures Run(cfg, longer).Some? && OthersSame(Run(cfg, events).value, Run(cfg, longer).value, k)
    ensures IsPulling(Run(cfg, longer).value.nodes[k], r)
  {
    var q := cfg.resources[k];
    var i :| 0 <= i < |q| && q[i] == r;
    longer := Drain(cfg, events, k, q, i);
    longer := PullHead(cfg, longer, k, q[i..]);
  }

  /** The first n nodes pull r if they list it, the others have not started. */
  ghost predicate PulledByFirst(cfg: Config, s: State, r: string, n: nat) {
    && |s.nodes| == |cfg.resources|
    && (forall k :: 0 <= k < n && k < |s.nodes| && r in cfg.resources[k] ==> IsPulling(s.nodes[k], r))
    && (forall k :: n <= k < |s.nodes| ==> Ready(s.nodes[k], cfg.resources[k]))
  }

  lemma {:induction false} AllPull(cfg: Config, r: string, n: nat) returns (events: seq<Event>)
    requires n <= |cfg.resources| && cfg.allowed > 0
    ensures Run(cfg, events).Some? && PulledByFirst(cfg, Run(cfg, events).value, r, n)
  {
    if n == 0 {
      events := [];
    } else {
      events := AllPull(cfg, r, n - 1);
      if r in cfg.resources[n - 1] {
        var shorter := events;
        events := StartPulling(cfg, events, n - 1, r);
        assert OthersSame(Run(cfg, shorter).value, Run(cfg, events).value, n - 1);
      }
    }
  }

  lemma PullersList(cfg: Config, events: seq<Event>, r: string)
    requires Run(cfg, events).Some?
    ensures Pullers(Run(cfg, events).value, r) <= Listing(cfg, r)
  {
    NodesInvReachable(cfg, events);
    var s := Run(cfg, events).value;
    forall k | k in Pullers(s, r) ensures r in cfg.resources[k] {
      var nd := s.nodes[k];
      assert NodeInv(cfg.allowed, cfg.resources[k], nd);
      var t :| 0 <= t < |nd.threads| && nd.threads[t].resource == r && nd.threads[t].phase == Pulling;
      assert r in Downloading(nd.threads);
      DownloadingIsListed(cfg.allowed, cfg.resources[k], nd);
    }
  }

  ghost predicate SemaphoreHolds(cfg: Config, r: string) {
    forall events :: Run(cfg, events).Some? ==> |Pullers(Run(cfg, events).value, r)| <= cfg.allowed
  }

  /** The slots keep the number of nodes that pull r within the setting in every
      run exactly when no more nodes than that ever want r, or none may pull: the
      leases by themselves keep no node out. */
  lemma SemaphoreHoldsIff(cfg: Config, r: string)
    ensures SemaphoreHolds(cfg, r) <==> cfg.allowed == 0 || |Listing(cfg, r)| <= cfg.allowed
  {
    if cfg.allowed == 0 || |Listing(cfg, r)| <= cfg.allowed {
      forall events | Run(cfg, events).Some? ensures |Pullers(Run(cfg, events).value, r)| <= cfg.allowed {
        PullersList(cfg, events, r);
        SubsetSize(Pullers(Run(cfg, events).value, r), Listing(cfg, r));
        if cfg.allowed == 0 {
          NothingWithoutSlots(cfg, events);
          assert Pullers(Run(cfg, events).value, r) == {};
        }
      }
    } else {
      var events := AllPull(cfg, r, |cfg.resources|);
      assert Listing(cfg, r) <= Pullers(Run(cfg, events).value, r);
      SubsetSize(Listing(cfg, r), Pullers(Run(cfg, events).value, r));
    }
  }

  // ---- the ways to one puller too many ---------------------------------

  /** What becomes of node 0's renewals: they come late, one of them raises, or
      another pull of the node fails, which ends its event loop. */
  datatype Way = Late | RenewalRaises | LoopEnds

  /** Every node wants r; where the loop of node 0 is to end, it wants b too. */
  function Table(way: Way, allowed: nat, r: string, b: string): Config {
    Config(allowed, seq(allowed + 1, (k: int) requires 0 <= k => if k == 0 && way == LoopEnds then [r, b] else [r]))
  }

  /** When node k takes its slot. */
  function TakenAt(k: nat): nat {
    if k == 0 then 0 else 30
  }

  /** Node nd pulls r by slot i, and its renewal is due at the given time. */
  predicate Holds(nd: Node, r: string, i: nat, due: nat) {
    && nd.pc == Idle && nd.loop == Looping && nd.threads == [Thread(r, i, Pulling)]
    && nd.handles == map[r := Timer(i, due)]
  }

  /** What has become of node 0, which pulls r all the same. */
  predicate Lost(way: Way, nd: Node, r: string) {
    && nd.threads != [] && nd.threads[0] == Thread(r, 0, Pulling)
    && match way
       case Late => nd.loop == Looping && !HasRaised(nd) && r in nd.handles && nd.handles[r].due == RENEW_AFTER
       case RenewalRaises => nd.loop == Looping && !HasRaised(nd) && r !in nd.handles
       case LoopEnds => nd.loop == Stopped
  }

  ghost predicate SlotsTaken(sv: Service, r: string, n: nat) {
    && (forall i: nat :: i < n ==> (r, i) in sv.leases && sv.leases[(r, i)].expiry == TakenAt(i) + LEASE_DURATION)
    && (forall i: nat :: i >= n ==> (r, i) !in sv.leases)
  }

  /** The first n nodes hold the first n slots, the others have not started. */
  ghost predicate Stair(way: Way, s: State, r: string, allowed: nat, n: nat) {
    && |s.nodes| == allowed + 1
    && (n > 0 ==> Lost(way, s.nodes[0], r))
    && (forall k :: 1 <= k < n && k <= allowed ==> Holds(s.nodes[k], r, k, TakenAt(k) + RENEW_AFTER))
    && (forall k :: 1 <= k <= allowed && n <= k ==> s.nodes[k] == StartNode([r]))
    && SlotsTaken(s.sv, r, n)
  }

  lemma TakesOnly(nd: Node, r: string, allowed: nat)
    requires nd == StartNode([r])
    ensures BeginNode(allowed, nd) == nd.(queue := [], pc := Acquiring(r, 0))
  {
    PickFirstFree([r], {}, 0, 0);
    assert [r][1..] + [r][..0] == [];
  }

  /** Node k tries the slots from the first one until it has come to slot n. */
  lemma {:induction false} Tries(cfg: Config, events: seq<Event>, k: nat, r: string, n: nat)
      returns (longer: seq<Event>)
    requires Run(cfg, events).Some? && k < |Run(cfg, events).value.nodes| == |cfg.resources|
    requires n < cfg.allowed && Run(cfg, events).value.nodes[k] == StartNode([r])
    requires forall i: nat :: i < n ==> Leased(Run(cfg, events).value.sv, (r, i))
    ensures Run(cfg, longer).Some? && OthersSame(Run(cfg, events).value, Run(cfg, longer).value, k)
    ensures Run(cfg, longer).value.sv == Run(cfg, events).value.sv
    ensures Run(cfg, longer).value.nodes[k] == StartNode([r]).(queue := [], pc := Acquiring(r, n))
  {
    if n == 0 {
      TakesOnly(Run(cfg, events).value.nodes[k], r, cfg.allowed);
      longer := NodeMoves(cfg, events, k, Begin(k));
    } else {
      longer := Tries(cfg, events, k, r, n - 1);
      longer := NodeMoves(cfg, longer, k, Try(k));
    }
  }

  /** Node k, the next to start, takes slot n, the first one that is free. */
  lemma TakesSlot(cfg: Config, events: seq<Event>, k: nat, r: string, n: nat) returns (longer: seq<Event>)
    requires Run(cfg, events).Some? && k < |Run(cfg, events).value.nodes| == |cfg.resources|
    requires n < cfg.allowed && Run(cfg, events).value.nodes[k] == StartNode([r])
    requires var sv := Run(cfg, events).value.sv;
      (forall i: nat :: i < n ==> Leased(sv, (r, i))) && !Leased(sv, (r, n))
    ensures Run(cfg, longer).Some? && OthersSame(Run(cfg, events).value, Run(cfg, longer).value, k)
    ensures var sv, sv' := Run(cfg, events).value.sv, Run(cfg, longer).value.sv;
      && sv' == sv.(leases := sv.leases[(r, n) := Lease(sv.nextId, sv.now + LEASE_DURATION)], nextId := sv.nextId + 1)
      && Holds(Run(cfg, longer).value.nodes[k], r, n, sv.now + RENEW_AFTER)
  {
    longer := Tries(cfg, events, k, r, n);
    longer := NodeMoves(cfg, longer, k, Try(k));
  }

  lemma {:induction false} Climb(cfg: Config, way: Way, events: seq<Event>, r: string, n: nat)
      returns (longer: seq<Event>)
    requires Run(cfg, events).Some? && |cfg.resources| == cfg.allowed + 1 && 1 <= n <= cfg.allowed
    requires var s := Run(cfg, events).value; Stair(way, s, r, cfg.allowed, 1) && s.sv.now == TakenAt(1)
    ensures Run(cfg, longer).Some?
    ensures var s := Run(cfg, longer).value; Stair(way, s, r, cfg.allowed, n) && s.sv.now == TakenAt(1)
  {
    longer := events;
    if n > 1 {
      longer := Climb(cfg, way, events, r, n - 1);
      var s := Run(cfg, longer).value;
      longer := TakesSlot(cfg, longer, n - 1, r, n - 1);
      NextStair(way, s, Run(cfg, longer).value, r, cfg.allowed, n - 1, s.sv.nextId);
    }
  }

  lemma NextStair(way: Way, s: State, s': State, r: string, allowed: nat, n: nat, id: nat)
    requires Stair(way, s, r, allowed, n) && 1 <= n < allowed && OthersSame(s, s', n)
    requires Holds(s'.nodes[n], r, n, TakenAt(n) + RENEW_AFTER)
    requires s'.sv.leases == s.sv.leases[(r, n) := Lease(id, TakenAt(n) + LEASE_DURATION)]
    ensures Stair(way, s', r, allowed, n + 1)
  {
  }

  // ---- node 0 ----------------------------------------------------------

  lemma TableStart(way: Way, allowed: nat, r: string, b: string)
    ensures var s := Init(Table(way, allowed, r, b));
      && |s.nodes| == |Table(way, allowed, r, b).resources| == allowed + 1
      && s.sv == Service(map[], 0, 0)
      && s.nodes[0] == StartNode(if way == LoopEnds then [r, b] else [r])
      && forall k :: 1 <= k <= allowed ==> s.nodes[k] == StartNode([r])
  {
  }

  lemma HandleHasLease(cfg: Config, events: seq<Event>, k: nat, r: string)
    requires Run(cfg, events).Some? && k < |cfg.resources|
    ensures |Run(cfg, events).value.nodes| == |cfg.resources|
    ensures var nd := Run(cfg, events).value.nodes[k]; r in nd.handles ==> r in nd.leases
  {
    NodesInvReachable(cfg, events);
    assert NodeInv(cfg.allowed, cfg.resources[k], Run(cfg, events).value.nodes[k]);
  }

  lemma FirstStair(s: State, r: string, allowed: nat, id: nat)
    requires |s.nodes| == allowed + 1 && Holds(s.nodes[0], r, 0, RENEW_AFTER)
    requires forall k :: 1 <= k <= allowed ==> s.nodes[k] == StartNode([r])
    requires s.sv.leases == map[(r, 0) := Lease(id, LEASE_DURATION)]
    ensures Stair(Late, s, r, allowed, 1)
  {
  }

  lemma FirstTakes(allowed: nat, r: string, b: string, way: Way) returns (events: seq<Event>)
    requires allowed > 0 && r != b && way != LoopEnds
    ensures var cfg := Table(way, allowed, r, b); Run(cfg, events).Some?
    ensures var s := Run(Table(way, allowed, r, b), events).value;
      Stair(Late, s, r, allowed, 1) && s.sv.now == 0 && r in s.nodes[0].leases
  {
    var cfg := Table(way, allowed, r, b);
    TableStart(way, allowed, r, b);
    events := TakesSlot(cfg, [], 0, r, 0);
    var s := Run(cfg, events).value;
    assert OthersSame(Init(cfg), s, 0);
    FirstStair(s, r, allowed, 0);
    HandleHasLease(cfg, events, 0, r);
  }

  lemma TakesOfTwo(nd: Node, r: string, b: string, allowed: nat)
    requires nd == StartNode([r, b])
    ensures BeginNode(allowed, nd) == nd.(queue := [b], pc := Acquiring(r, 0))
  {
    PickFirstFree([r, b], {}, 0, 0);
    assert [r, b][1..] + [r, b][..0] == [b];
  }

  lemma TakesSecond(nd: Node, r: string, b: string, allowed: nat)
    requires nd.queue == [b] && nd.downloading == {r} && r != b && allowed > 0
    ensures BeginNode(allowed, nd) == nd.(queue := [], pc := Acquiring(b, 0))
  {
    PickFirstFree([b], {r}, 0, 0);
    assert [b][1..] + [b][..0] == [];
  }

  /** The state in which only node 0 has done anything. */
  ghost predicate OnlyFirst(s: State, r: string, allowed: nat) {
    && |s.nodes| == allowed + 1 && s.sv.now == 0 && SlotsTaken(s.sv, r, 1)
    && (forall k :: 1 <= k <= allowed ==> s.nodes[k] == StartNode([r]))
    && s.nodes[0].pc == Idle && s.nodes[0].loop == Looping
  }

  lemma FirstOfTwo(allowed: nat, r: string, b: string) returns (events: seq<Event>)
    requires allowed > 0 && r != b
    ensures Run(Table(LoopEnds, allowed, r, b), events).Some?
    ensures var s := Run(Table(LoopEnds, allowed, r, b), events).value;
      && OnlyFirst(s, r, allowed) && s.nodes[0].threads == [Thread(r, 0, Pulling)]
      && s.nodes[0].queue == [b] && s.nodes[0].downloading == {r}
      && forall slot :: slot in s.sv.leases ==> slot.0 == r
  {
    var cfg := Table(LoopEnds, allowed, r, b);
    TableStart(LoopEnds, allowed, r, b);
    TakesOfTwo(Init(cfg).nodes[0], r, b, allowed);
    events := Begins(cfg, [], 0);
    var s := Run(cfg, events).value;
    assert OthersSame(Init(cfg), s, 0);
    events := NodeMoves(cfg, events, 0, Try(0));
    assert OthersSame(s, Run(cfg, events).value, 0);
  }

  lemma FirstTakesBoth(allowed: nat, r: string, b: string) returns (events: seq<Event>)
    requires allowed > 0 && r != b
    ensures Run(Table(LoopEnds, allowed, r, b), events).Some?
    ensures var s := Run(Table(LoopEnds, allowed, r, b), events).value;
      OnlyFirst(s, r, allowed) && s.nodes[0].threads == [Thread(r, 0, Pulling), Thread(b, 0, Pulling)]
  {
    var cfg := Table(LoopEnds, allowed, r, b);
    events := FirstOfTwo(allowed, r, b);
    TakesSecond(Run(cfg, events).value.nodes[0], r, b, allowed);
    events := Begins(cfg, events, 0);
    events := NodeMoves(cfg, events, 0, Try(0));
  }

  /** Node 0 has taken the first slot, and its renewals are lost. */
  lemma FirstLost(allowed: nat, r: string, b: string, way: Way) returns (events: seq<Event>)
    requires allowed > 0 && r != b
    ensures Run(Table(way, allowed, r, b), events).Some?
    ensures var s := Run(Table(way, allowed, r, b), events).value;
      Stair(way, s, r, allowed, 1) && s.sv.now == TakenAt(1)
  {
    var cfg := Table(way, allowed, r, b);
    if way == LoopEnds {
      events := FirstTakesBoth(allowed, r, b);
      events := NodeMoves(cfg, events, 0, PullFailed(0, 1));
      assert Run(cfg, events).value.nodes[0].threads[1].phase == Raised;
      events := NodeMoves(cfg, events, 0, Stop(0));
      events := TimePasses(cfg, events, TakenAt(1));
    } else {
      events := FirstTakes(allowed, r, b, way);
      events := TimePasses(cfg, events, TakenAt(1));
      if way == RenewalRaises {
        events := NodeMoves(cfg, events, 0, RenewError(0, r));
      }
    }
  }

  // ---- one puller too many ---------------------------------------------

  /** For every number of slots and in each of the three ways, one puller more
      than there are slots: node 0 has lost its lease, the renewals of all others
      are on time. With a renewal that only comes late it is late by exactly the
      45 seconds that PullersBounded allows for, and in the first two ways no
      pull has failed and every event loop goes on. */
  lemma OnePullerTooMany(allowed: nat, r: string, b: string, way: Way) returns (events: seq<Event>)
    requires allowed > 0 && r != b
    ensures Run(Table(way, allowed, r, b), events).Some?
    ensures var s := Run(Table(way, allowed, r, b), events).value;
      && |s.nodes| == |Pullers(s, r)| == allowed + 1
      && Lost(way, s.nodes[0], r) && s.sv.now == 60
      && (way == Late ==> s.nodes[0].handles[r].due == 15)
      && forall k :: 1 <= k <= allowed ==>
           OnTime(s.sv.now, s.nodes[k], r) && s.nodes[k].loop == Looping && !HasRaised(s.nodes[k])
  {
    var cfg := Table(way, allowed, r, b);
    events := FirstLost(allowed, r, b, way);
    events := Climb(cfg, way, events, r, allowed);
    events := TimePasses(cfg, events, LEASE_DURATION - TakenAt(1));
    events := TakesSlot(cfg, events, allowed, r, 0);
    LastStep(way, Run(cfg, events).value, r, allowed);
  }

  lemma LastStep(way: Way, s: State, r: string, allowed: nat)
    requires allowed > 0 && |s.nodes| == allowed + 1 && s.sv.now == LEASE_DURATION && Lost(way, s.nodes[0], r)
    requires forall k :: 1 <= k < allowed ==> Holds(s.nodes[k], r, k, TakenAt(k) + RENEW_AFTER)
    requires Holds(s.nodes[allowed], r, 0, LEASE_DURATION + RENEW_AFTER)
    ensures |Pullers(s, r)| == allowed + 1
    ensures forall k :: 1 <= k <= allowed ==>
      OnTime(s.sv.now, s.nodes[k], r) && s.nodes[k].loop == Looping && !HasRaised(s.nodes[k])
  {
    forall k | 0 <= k < |s.nodes| ensures IsPulling(s.nodes[k], r) {
      assert s.nodes[k].threads[0].resource == r && s.nodes[k].threads[0].phase == Pulling;
    }
    IntervalSize(Pullers(s, r), allowed + 1);
  }

  lemma {:induction false} IntervalSize(ks: set<int>, n: nat)
    requires forall k :: k in ks <==> 0 <= k < n
    ensures |ks| == n
  {
    if n > 0 {
      IntervalSize(ks - {n - 1}, n - 1);
    } else {
      assert forall k :: k !in ks;
      assert ks == {};
    }
  }
}
