/** Runs that attain the bound on the downloads of one node
    (cascade/cascade.py). */
module CascadeBounds {
  import opened Common
  import opened CascadeQueue
  import opened Cascade
  import opened CascadeNode

  // ---- extending a run -------------------------------------------------

  lemma RunSnoc(cfg: Config, events: seq<Event>, e: Event)
    requires Run(cfg, events).Some?
    requires |Run(cfg, events).value.nodes| == |cfg.resources| && Enabled(cfg, Run(cfg, events).value, e)
    ensures Run(cfg, events + [e]) == Some(Next(cfg, Run(cfg, events).value, e))
  {
    assert (events + [e])[..|events + [e]| - 1] == events;
  }

  function Later(s: State, n: nat): State {
    s.(sv := s.sv.(now := s.sv.now + n))
  }

  lemma {:induction false} TimePasses(cfg: Config, events: seq<Event>, n: nat) returns (longer: seq<Event>)
    requires Run(cfg, events).Some? && |Run(cfg, events).value.nodes| == |cfg.resources|
    ensures events <= longer && Run(cfg, longer) == Some(Later(Run(cfg, events).value, n))
  {
    longer := events;
    if n > 0 {
      longer := TimePasses(cfg, events, n - 1);
      RunSnoc(cfg, longer, Tick);
      longer := longer + [Tick];
    }
  }

  /** The nodes other than k are the same in both states. */
  predicate OthersSame(s: State, s': State, k: int) {
    |s'.nodes| == |s.nodes| && forall j :: 0 <= j < |s.nodes| && j != k ==> s'.nodes[j] == s.nodes[j]
  }

  /** A step of node k extends the run. */
  lemma NodeMoves(cfg: Config, events: seq<Event>, k: nat, e: Event) returns (longer: seq<Event>)
    requires Run(cfg, events).Some? && k < |Run(cfg, events).value.nodes| == |cfg.resources|
    requires !e.Tick? && e.k == k && CanStep(cfg, Run(cfg, events).value.sv, Run(cfg, events).value.nodes[k], e)
    ensures longer == events + [e] && Run(cfg, longer).Some?
    ensures var s, s' := Run(cfg, events).value, Run(cfg, longer).value;
      && OthersSame(s, s', k) && s'.nodes[k] == StepNode(cfg, k, s.sv, s.nodes[k], e)
      && s'.sv == StepService(s.sv, s.nodes[k], e)
  {
    RunSnoc(cfg, events, e);
    longer := events + [e];
  }

  /** No lease outlasts the next sixty seconds. */
  ghost predicate ShortLeases(sv: Service) {
    forall slot :: slot in sv.leases ==> sv.leases[slot].expiry <= sv.now + LEASE_DURATION
  }

  lemma {:induction false} ShortLeasesReachable(cfg: Config, events: seq<Event>)
    requires Run(cfg, events).Some?
    ensures ShortLeases(Run(cfg, events).value.sv)
  {
    if events != [] {
      var front := events[..|events| - 1];
      ShortLeasesReachable(cfg, front);
      var s, e := Run(cfg, front).value, events[|events| - 1];
      if !e.Tick? {
        ShortLeasesStep(s.sv, s.nodes[NodeOf(e)], e);
      }
    }
  }

  lemma ShortLeasesStep(sv: Service, nd: Node, e: Event)
    requires ShortLeases(sv)
    ensures ShortLeases(StepService(sv, nd, e))
  {
  }

  /** After sixty seconds without a renewal every slot is free. */
  lemma SlotsFree(cfg: Config, events: seq<Event>) returns (longer: seq<Event>)
    requires Run(cfg, events).Some? && |Run(cfg, events).value.nodes| == |cfg.resources|
    ensures events <= longer && Run(cfg, longer) == Some(Later(Run(cfg, events).value, LEASE_DURATION))
    ensures forall slot :: !Leased(Run(cfg, longer).value.sv, slot)
  {
    ShortLeasesReachable(cfg, events);
    longer := TimePasses(cfg, events, LEASE_DURATION);
  }

  /** A node gets the slot that it tries. */
  lemma Granted(cfg: Config, events: seq<Event>, k: nat) returns (longer: seq<Event>, id: nat, now: nat)
    requires Run(cfg, events).Some? && k < |Run(cfg, events).value.nodes| == |cfg.resources|
    requires var pc := Run(cfg, events).value.nodes[k].pc; pc.Acquiring? && pc.i < cfg.allowed
    ensures events <= longer && Run(cfg, longer).Some?
    ensures var s, s' := Run(cfg, events).value, Run(cfg, longer).value;
      OthersSame(s, s', k) && s'.nodes[k] == Registered(s.nodes[k], id, now)
  {
    longer := SlotsFree(cfg, events);
    var s := Run(cfg, longer).value;
    id, now := s.sv.nextId, s.sv.now;
    longer := NodeMoves(cfg, longer, k, Try(k));
  }

  predicate Waiting(nd: Node) {
    nd.pc == Idle && nd.loop == Looping && nd.queue != []
  }

  /** A node with a queue goes through one round of the direct download. */
  lemma Begins(cfg: Config, events: seq<Event>, k: nat) returns (longer: seq<Event>)
    requires Run(cfg, events).Some? && k < |Run(cfg, events).value.nodes| == |cfg.resources|
    requires Waiting(Run(cfg, events).value.nodes[k])
    ensures events <= longer && Run(cfg, longer).Some?
    ensures var s, s' := Run(cfg, events).value, Run(cfg, longer).value;
      OthersSame(s, s', k) && s'.sv == s.sv && s'.nodes[k] == BeginNode(cfg.allowed, s.nodes[k])
  {
    DoneMeansAllPulled(cfg, events, k);
    longer := NodeMoves(cfg, events, k, Begin(k));
  }

  // ---- in flight on one node -------------------------------------------

  /** With a free entry in the queue the loop either takes one, or stops early
      at a repeated entry and leaves the first free one nearer to the front. */
  lemma {:induction false} PickProgress(q: seq<string>, seen: set<string>, d: set<string>, t: nat, f: nat)
      returns (g: nat)
    requires FirstFree(q, d, f) && seen <= d
    ensures var (r, q') := Pick(q, seen, Still(d), t);
      (r.Some? && r.value !in d) || (r.None? && g < f && FirstFree(q', d, g))
    decreases f
  {
    var p := q[1..] + [q[0]];
    g := 0;
    if q[0] in seen {
      g := f - 1;
      assert p[f - 1] == q[f];
    } else if q[0] in d {
      assert p[f - 1] == q[f];
      assert forall j :: 0 <= j < f - 1 ==> p[j] == q[j + 1];
      g := PickProgress(p, seen + {q[0]}, d, t + 1, f - 1);
    }
  }

  /** All threads of the node pull, and hold a lease. */
  ghost predicate AllPulling(nd: Node) {
    forall t :: 0 <= t < |nd.threads| ==> nd.threads[t].phase == Pulling && nd.threads[t].resource in nd.handles
  }

  lemma {:induction false} StartedHasThread(threads: seq<Thread>, x: string)
    requires x in Started(threads)
    ensures exists t :: 0 <= t < |threads| && threads[t].resource == x
  {
    var n := |threads| - 1;
    if x in Started(threads[..n]) {
      StartedHasThread(threads[..n], x);
      var t :| 0 <= t < n && threads[..n][t].resource == x;
      assert threads[t].resource == x;
    }
  }

  lemma {:induction false} ThreadIsStarted(threads: seq<Thread>, t: nat)
    requires t < |threads|
    ensures threads[t].resource in Started(threads)
  {
    if t < |threads| - 1 {
      ThreadIsStarted(threads[..|threads| - 1], t);
    }
  }

  /** What is downloading comes from the table. */
  lemma DownloadingIsListed(allowed: nat, resources: seq<string>, nd: Node)
    requires NodeInv(allowed, resources, nd)
    ensures nd.downloading <= Elements(resources)
  {
    forall x | x in nd.downloading ensures x in resources {
      var t :| 0 <= t < |nd.threads| && InSet(nd.threads[t].phase) && nd.threads[t].resource == x;
      ThreadIsStarted(nd.threads, t);
      assert x in multiset(nd.queue) + InHand(nd.pc) + Started(nd.threads);
    }
  }

  /** While all threads pull and fewer resources than listed are downloading,
      another one is queued. */
  lemma FreeIsQueued(allowed: nat, resources: seq<string>, nd: Node) returns (f: nat)
    requires NodeInv(allowed, resources, nd) && AllPulling(nd) && nd.pc == Idle
    requires |nd.downloading| < |Elements(resources)|
    ensures FirstFree(nd.queue, nd.downloading, f)
  {
    if Elements(resources) <= nd.downloading {
      SubsetSize(Elements(resources), nd.downloading);
    }
    var x :| x in resources && x !in nd.downloading;
    if x in Started(nd.threads) {
      StartedHasThread(nd.threads, x);
    }
    assert x in multiset(resources) && x in multiset(nd.queue) + InHand(nd.pc) + Started(nd.threads);
    f := FirstFreeOf(nd.queue, nd.downloading, x);
  }

  lemma {:induction false} FirstFreeOf(q: seq<string>, d: set<string>, x: string) returns (f: nat)
    requires x in q && x !in d
    ensures FirstFree(q, d, f)
  {
    f := 0;
    if q[0] in d {
      f := FirstFreeOf(q[1..], d, x);
      f := f + 1;
    }
  }

  /** After a round that took x and was granted a slot. */
  lemma OneMore(nd: Node, picked: Node, id: nat, now: nat)
    requires AllPulling(nd) && picked.pc.Acquiring? && picked.pc.resource !in nd.downloading && picked.loop == nd.loop
    requires picked.threads == nd.threads && picked.handles == nd.handles && picked.downloading == nd.downloading
    ensures var after := Registered(picked, id, now);
      AllPulling(after) && after.pc == Idle && after.loop == nd.loop && |after.downloading| == |nd.downloading| + 1
  {
  }

  /** Node k has j downloads in flight and has finished none. */
  ghost predicate Loaded(nd: Node, j: nat) {
    AllPulling(nd) && nd.pc == Idle && nd.loop == Looping && |nd.downloading| == j
  }

  lemma {:induction false} AnotherDownload(cfg: Config, events: seq<Event>, k: nat, j: nat, f: nat)
      returns (longer: seq<Event>)
    requires Run(cfg, events).Some? && k < |Run(cfg, events).value.nodes| == |cfg.resources| && cfg.allowed > 0
    requires var nd := Run(cfg, events).value.nodes[k];
      Loaded(nd, j) && j <= cfg.allowed && FirstFree(nd.queue, nd.downloading, f)
    ensures Run(cfg, longer).Some? && |Run(cfg, longer).value.nodes| == |cfg.resources|
    ensures Loaded(Run(cfg, longer).value.nodes[k], j + 1)
    decreases f
  {
    var nd := Run(cfg, events).value.nodes[k];
    longer := Begins(cfg, events, k);
    var g := PickProgress(nd.queue, {}, nd.downloading, 0, f);
    var picked := Run(cfg, longer).value.nodes[k];
    if picked.pc == Idle {
      longer := AnotherDownload(cfg, longer, k, j, g);
    } else {
      var id, now;
      longer, id, now := Granted(cfg, longer, k);
      OneMore(nd, picked, id, now);
    }
  }

  lemma {:induction false} LoadUp(cfg: Config, k: nat, j: nat) returns (events: seq<Event>)
    requires k < |cfg.resources| && cfg.allowed > 0 && j <= cfg.allowed + 1 && j <= |Elements(cfg.resources[k])|
    ensures Run(cfg, events).Some? && |Run(cfg, events).value.nodes| == |cfg.resources|
    ensures Loaded(Run(cfg, events).value.nodes[k], j)
  {
    if j == 0 {
      events := [];
    } else {
      events := LoadUp(cfg, k, j - 1);
      NodesInvReachable(cfg, events);
      var nd := Run(cfg, events).value.nodes[k];
      assert NodeInv(cfg.allowed, cfg.resources[k], nd);
      var f := FreeIsQueued(cfg.allowed, cfg.resources[k], nd);
      events := AnotherDownload(cfg, events, k, j - 1, f);
    }
  }

  // ---- no slots --------------------------------------------------------

  ghost predicate NoThreads(s: State) {
    forall k :: 0 <= k < |s.nodes| ==> s.nodes[k].threads == []
  }

  /** Without slots no download ever starts. */
  lemma {:induction false} NothingWithoutSlots(cfg: Config, events: seq<Event>)
    requires Run(cfg, events).Some? && cfg.allowed == 0
    ensures NoThreads(Run(cfg, events).value)
  {
    if events != [] {
      var front := events[..|events| - 1];
      NothingWithoutSlots(cfg, front);
      var s, e := Run(cfg, front).value, events[|events| - 1];
      if !e.Tick? {
        assert s.nodes[NodeOf(e)].threads == [];
        assert StepNode(cfg, NodeOf(e), s.sv, s.nodes[NodeOf(e)], e).threads == [];
      }
    }
  }

  ghost predicate InFlightBounded(cfg: Config, k: nat)
    requires k < |cfg.resources|
  {
    forall events :: Run(cfg, events).Some? && k < |Run(cfg, events).value.nodes| ==>
      |Run(cfg, events).value.nodes[k].downloading| <= cfg.allowed
  }

  /** The check on the downloading set lets one download too many through: node
      k keeps to the setting in every run exactly when it has no more different
      resources to pull than the setting allows at once, or may pull none. */
  lemma InFlightBoundedIff(cfg: Config, k: nat)
    requires k < |cfg.resources|
    ensures InFlightBounded(cfg, k) <==> cfg.allowed == 0 || |Elements(cfg.resources[k])| <= cfg.allowed
  {
    if cfg.allowed == 0 || |Elements(cfg.resources[k])| <= cfg.allowed {
      forall events | Run(cfg, events).Some? && k < |Run(cfg, events).value.nodes|
        ensures |Run(cfg, events).value.nodes[k].downloading| <= cfg.allowed
      {
        InFlightIsListed(cfg, events, k);
      }
    } else {
      var events := LoadUp(cfg, k, cfg.allowed + 1);
      assert |Run(cfg, events).value.nodes[k].downloading| > cfg.allowed;
    }
  }

  lemma InFlightIsListed(cfg: Config, events: seq<Event>, k: nat)
    requires Run(cfg, events).Some? && k < |cfg.resources| && k < |Run(cfg, events).value.nodes|
    ensures |Run(cfg, events).value.nodes[k].downloading| <=
      if cfg.allowed == 0 then 0 else |Elements(cfg.resources[k])|
  {
    NodesInvReachable(cfg, events);
    var nd := Run(cfg, events).value.nodes[k];
    assert NodeInv(cfg.allowed, cfg.resources[k], nd);
    DownloadingIsListed(cfg.allowed, cfg.resources[k], nd);
    SubsetSize(nd.downloading, Elements(cfg.resources[k]));
    if cfg.allowed == 0 {
      NothingWithoutSlots(cfg, events);
      assert nd.downloading == {};
    }
  }
}
