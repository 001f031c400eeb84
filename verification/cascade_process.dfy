/** The mutable globals of one cascade process and the functions that update
    them (cascade/cascade.py), proved against the node steps of `Cascade`. */
module CascadeProcess {
  import opened Common
  import opened CascadeQueue
  import opened Cascade
  import opened CascadeNode
  import opened CascadeBounds
  import opened CascadeRelease

  /** Trying the slots in turn; grants[i] is the service's answer for slot i. */
  function AcquireFrom(nd: Node, grants: seq<Option<nat>>, now: nat): Node
    requires nd.pc.Acquiring? && nd.pc.i <= |grants|
    decreases |grants| - nd.pc.i
  {
    if nd.pc.i == |grants| then nd.(pc := Idle, queue := nd.queue + [nd.pc.resource])
    else
      match grants[nd.pc.i]
      case Some(id) => Registered(nd, id, now)
      case None => AcquireFrom(nd.(pc := Acquiring(nd.pc.resource, nd.pc.i + 1)), grants, now)
  }

  function DirectDownloaded(nd: Node, grants: seq<Option<nat>>, now: nat): Node
    requires nd.queue != [] && nd.pc == Idle
  {
    var b := BeginNode(|grants|, nd);
    if b.pc.Acquiring? then AcquireFrom(b, grants, now) else b
  }

  lemma AcquireFromUnfolds(nd: Node, grants: seq<Option<nat>>, now: nat)
    requires nd.pc.Acquiring? && nd.pc.i <= |grants|
    ensures AcquireFrom(nd, grants, now) ==
      if nd.pc.i == |grants| then nd.(pc := Idle, queue := nd.queue + [nd.pc.resource])
      else if grants[nd.pc.i].Some? then Registered(nd, grants[nd.pc.i].value, now)
      else AcquireFrom(nd.(pc := Acquiring(nd.pc.resource, nd.pc.i + 1)), grants, now)
  {
  }

  lemma TriedInv(allowed: nat, resources: seq<string>, nd: Node)
    requires NodeInv(allowed, resources, nd) && nd.pc.Acquiring? && nd.pc.i < allowed
    ensures NodeInv(allowed, resources, nd.(pc := Acquiring(nd.pc.resource, nd.pc.i + 1)))
  {
    ThreadsAlone(allowed, resources, nd, nd.(pc := Acquiring(nd.pc.resource, nd.pc.i + 1)));
  }

  lemma {:induction false} AcquireFromInv(resources: seq<string>, nd: Node, grants: seq<Option<nat>>, now: nat)
    requires NodeInv(|grants|, resources, nd) && nd.pc.Acquiring?
    ensures NodeInv(|grants|, resources, AcquireFrom(nd, grants, now)) && AcquireFrom(nd, grants, now).pc == Idle
    decreases |grants| - nd.pc.i
  {
    AcquireFromUnfolds(nd, grants, now);
    if nd.pc.i == |grants| {
      GiveUpInv(|grants|, resources, nd);
    } else if grants[nd.pc.i].Some? {
      RegisteredInv(|grants|, resources, nd, grants[nd.pc.i].value, now);
    } else {
      TriedInv(|grants|, resources, nd);
      AcquireFromInv(resources, nd.(pc := Acquiring(nd.pc.resource, nd.pc.i + 1)), grants, now);
    }
  }

  /** A whole round of the download logic keeps the node invariant, whatever
      the service answers. */
  lemma DirectDownloadedInv(resources: seq<string>, nd: Node, grants: seq<Option<nat>>, now: nat)
    requires NodeInv(|grants|, resources, nd) && nd.queue != [] && nd.pc == Idle
    ensures NodeInv(|grants|, resources, DirectDownloaded(nd, grants, now))
    ensures DirectDownloaded(nd, grants, now).pc == Idle
  {
    BeginInv(|grants|, resources, nd);
    if BeginNode(|grants|, nd).pc.Acquiring? {
      AcquireFromInv(resources, BeginNode(|grants|, nd), grants, now);
    }
  }

  // ---- a round as steps of the system ----------------------------------

  /** What the service would answer for each slot of r. */
  function Answers(sv: Service, r: string, allowed: nat): (grants: seq<Option<nat>>)
    ensures |grants| == allowed
  {
    seq(allowed, (i: int) requires 0 <= i => if Leased(sv, (r, i)) then None else Some(sv.nextId))
  }

  /** Attempts of node k, the last of which may be to give up. */
  predicate Attempts(k: nat, round: seq<Event>) {
    round != [] && (forall i :: 0 <= i < |round| - 1 ==> round[i] == Try(k)) && Last(round) in {Try(k), GiveUp(k)}
  }

  /** One attempt: the loop over the slots goes on, or ends in the same node. */
  lemma AttemptIsStep(cfg: Config, k: nat, sv: Service, nd: Node)
    requires k < |cfg.resources| && nd.pc.Acquiring? && nd.pc.i < cfg.allowed
    ensures var grants := Answers(sv, nd.pc.resource, cfg.allowed);
      var after := StepNode(cfg, k, sv, nd, Try(k));
      if Leased(sv, (nd.pc.resource, nd.pc.i))
      then after.pc == Acquiring(nd.pc.resource, nd.pc.i + 1) && StepService(sv, nd, Try(k)) == sv &&
           AcquireFrom(nd, grants, sv.now) == AcquireFrom(after, grants, sv.now)
      else AcquireFrom(nd, grants, sv.now) == after
  {
  }

  /** The steps `round` lead node k to nd and move no other node. */
  ghost predicate StepsTo(cfg: Config, events: seq<Event>, s: State, round: seq<Event>, k: nat, nd: Node) {
    Run(cfg, events + round).Some? &&
    var s' := Run(cfg, events + round).value;
    OthersSame(s, s', k) && k < |s'.nodes| && s'.nodes[k] == nd
  }

  lemma StepsCompose(
      cfg: Config, events: seq<Event>, s: State, e: Event, mid: State, rest: seq<Event>, k: nat, nd: Node)
    requires OthersSame(s, mid, k) && StepsTo(cfg, events + [e], mid, rest, k, nd)
    ensures StepsTo(cfg, events, s, [e] + rest, k, nd)
  {
    assert events + ([e] + rest) == events + [e] + rest;
  }

  lemma OneStep(cfg: Config, events: seq<Event>, s: State, k: nat, e: Event) returns (s': State)
    requires Run(cfg, events) == Some(s) && k < |s.nodes| == |cfg.resources|
    requires !e.Tick? && e.k == k && CanStep(cfg, s.sv, s.nodes[k], e)
    ensures Run(cfg, events + [e]) == Some(s') && OthersSame(s, s', k)
    ensures s'.sv == StepService(s.sv, s.nodes[k], e)
    ensures s'.nodes[k] == StepNode(cfg, k, s.sv, s.nodes[k], e)
    ensures StepsTo(cfg, events, s, [e], k, s'.nodes[k])
  {
    var longer := NodeMoves(cfg, events, k, e);
    s' := Run(cfg, longer).value;
  }

  lemma AttemptsPrepend(k: nat, rest: seq<Event>)
    requires Attempts(k, rest)
    ensures Attempts(k, [Try(k)] + rest)
  {
    assert Last([Try(k)] + rest) == Last(rest);
  }

  lemma {:induction false} AcquireSteps(cfg: Config, events: seq<Event>, s: State, k: nat) returns (round: seq<Event>)
    requires Run(cfg, events) == Some(s) && k < |s.nodes| == |cfg.resources|
    requires s.nodes[k].pc.Acquiring? && s.nodes[k].pc.i <= cfg.allowed
    ensures Attempts(k, round)
    ensures StepsTo(cfg, events, s, round, k,
      AcquireFrom(s.nodes[k], Answers(s.sv, s.nodes[k].pc.resource, cfg.allowed), s.sv.now))
    decreases cfg.allowed - s.nodes[k].pc.i
  {
    var r, i := s.nodes[k].pc.resource, s.nodes[k].pc.i;
    if i == cfg.allowed {
      var s' := OneStep(cfg, events, s, k, GiveUp(k));
      round := [GiveUp(k)];
    } else {
      var s' := OneStep(cfg, events, s, k, Try(k));
      AttemptIsStep(cfg, k, s.sv, s.nodes[k]);
      round := [Try(k)];
      if Leased(s.sv, (r, i)) {
        var rest := AcquireSteps(cfg, events + round, s', k);
        AttemptsPrepend(k, rest);
        StepsCompose(cfg, events, s, Try(k), s', rest, k,
          AcquireFrom(s.nodes[k], Answers(s.sv, r, cfg.allowed), s.sv.now));
        round := round + rest;
      }
    }
  }

  /** The resource that a round is about; "" if it takes none. */
  function Wanted(picked: Node): string {
    match picked.pc
    case Idle => ""
    case Acquiring(r, _) => r
  }

  lemma BeginIsStep(cfg: Config, k: nat, sv: Service, nd: Node)
    requires k < |cfg.resources| && CanStep(cfg, sv, nd, Begin(k))
    ensures var b := StepNode(cfg, k, sv, nd, Begin(k));
      var grants := Answers(sv, Wanted(b), cfg.allowed);
      && (b.pc.Acquiring? ==> b.pc.i == 0)
      && DirectDownloaded(nd, grants, sv.now) == if b.pc.Acquiring? then AcquireFrom(b, grants, sv.now) else b
  {
  }

  /** A round of the direct download is the step Begin, followed, if a resource
      was taken, by attempts at its slots: what the round computes from the
      answers of the service is what these steps lead to. */
  lemma RoundIsSteps(cfg: Config, events: seq<Event>, s: State, k: nat) returns (round: seq<Event>)
    requires Run(cfg, events) == Some(s) && k < |s.nodes| == |cfg.resources|
    requires CanStep(cfg, s.sv, s.nodes[k], Begin(k))
    ensures round != [] && round[0] == Begin(k)
    ensures if BeginNode(cfg.allowed, s.nodes[k]).pc.Acquiring? then Attempts(k, round[1..]) else |round| == 1
    ensures StepsTo(cfg, events, s, round, k, DirectDownloaded(s.nodes[k],
      Answers(s.sv, Wanted(BeginNode(cfg.allowed, s.nodes[k])), cfg.allowed), s.sv.now))
  {
    var picked := OneStep(cfg, events, s, k, Begin(k));
    BeginIsStep(cfg, k, s.sv, s.nodes[k]);
    round := [Begin(k)];
    if picked.nodes[k].pc.Acquiring? {
      var rest := AcquireSteps(cfg, events + round, picked, k);
      StepsCompose(cfg, events, s, Begin(k), picked, rest, k,
        AcquireFrom(picked.nodes[k], Answers(s.sv, picked.nodes[k].pc.resource, cfg.allowed), s.sv.now));
      round := round + rest;
      assert round[1..] == rest;
    }
  }

  class Process {
    var queue: seq<string>
    var downloading: set<string>
    var blobLeases: map<string, nat>
    var cbHandles: map<string, Timer>
    var threads: seq<Thread>
    var grCount: nat
    var grDone: bool
    const allowed: nat
    const resources: seq<string>

    /** The process between two activations of its event loop. */
    function View(): Node
      reads this
    {
      Node(queue, Idle, downloading, blobLeases, cbHandles, threads, grCount, grDone, Looping)
    }

    ghost predicate Valid()
      reads this
    {
      NodeInv(allowed, resources, View())
    }

    /** distribute_global_resources: fill the queue */
    constructor (allowed: nat, resources: seq<string>)
      ensures Valid() && View() == StartNode(resources)
      ensures this.allowed == allowed && this.resources == resources
    {
      this.allowed, this.resources := allowed, resources;
      queue, downloading, blobLeases, cbHandles := resources, {}, map[], map[];
      threads, grCount, grDone := [], 0, false;
      new;
      StartInv(allowed, resources);
    }

    /** The acquired lease is recorded, its renewal scheduled and the thread
        started (_direct_download_resources_async). */
    method Register(r: string, i: nat, id: nat, now: nat)
      modifies `blobLeases, `cbHandles, `downloading, `threads
      ensures View() == Registered(old(View()).(pc := Acquiring(r, i)), id, now)
    {
      blobLeases := blobLeases[r := id];
      cbHandles := cbHandles[r := Timer(i, now + RENEW_AFTER)];
      downloading := downloading + {r};
      threads := threads + [Thread(r, i, Pulling)];
    }

    /** The loop over the blobs of a resource that was taken off the queue. */
    method Acquire(r: string, grants: seq<Option<nat>>, now: nat)
      requires |grants| == allowed
      modifies `queue, `blobLeases, `cbHandles, `downloading, `threads
      ensures View() == AcquireFrom(old(View()).(pc := Acquiring(r, 0)), grants, now)
    {
      ghost var before := View();
      var i := 0;
      while i < allowed
        invariant i <= allowed && View() == before
        invariant AcquireFrom(before.(pc := Acquiring(r, 0)), grants, now) ==
          AcquireFrom(before.(pc := Acquiring(r, i)), grants, now)
      {
        match grants[i] {
          case Some(id) =>
            Register(r, i, id, now);
            return;
          case None =>
        }
        i := i + 1;
      }
      queue := queue + [r];
    }

    /** _direct_download_resources_async */
    method DirectDownload(grants: seq<Option<nat>>, now: nat)
      requires Valid() && queue != [] && |grants| == allowed
      modifies this
      ensures View() == DirectDownloaded(old(View()), grants, now) && Valid()
    {
      DirectDownloadedInv(resources, View(), grants, now);
      if |downloading| > allowed {
        return;
      }
      var resource, q := PickResource(queue, Still(downloading));
      queue := q;
      if resource.Some? {
        Acquire(resource.value, grants, now);
      }
    }

    /** _renew_blob_lease: `renewed` is whether the service renewed the lease. */
    method RenewBlobLease(r: string, renewed: bool, now: nat)
      requires Valid() && r in cbHandles && r in blobLeases
      modifies `blobLeases, `cbHandles
      ensures View() == if renewed
        then old(View()).(handles := old(cbHandles)[r := Timer(old(cbHandles)[r].blob, now + RENEW_AFTER)])
        else Forget(old(View()), r)
      ensures Valid()
    {
      ghost var before := View();
      if renewed {
        RescheduledInv(allowed, resources, before, r, now + RENEW_AFTER);
        cbHandles := cbHandles[r := Timer(cbHandles[r].blob, now + RENEW_AFTER)];
      } else {
        ForgetInv(allowed, resources, before, r);
        blobLeases := blobLeases - {r};
        cbHandles := cbHandles - {r};
      }
    }

    /** _inc_resource_count, called by thread t after its pull */
    method IncResourceCount(t: nat)
      requires Valid() && t < |threads| && threads[t].phase == Pulling
      modifies `threads, `grCount, `grDone
      ensures View() == CountPulled(WithPhase(old(View()), t, Counted), |resources|) && Valid()
    {
      PhaseInv(allowed, resources, View(), t, Counted);
      threads := threads[t := threads[t].(phase := Counted)];
      grCount := grCount + 1;
      if grCount == |resources| {
        grDone := true;
      }
    }

    /** The finally block of the thread. `released` is what the service is asked to
        release: the slot and the lease. */
    method FinishThread(t: nat) returns (released: Option<(Slot, nat)>)
      requires Valid() && t < |threads| && threads[t].phase in {Counted, Raised}
      modifies `threads, `cbHandles, `blobLeases, `downloading
      ensures View() == CleanedUp(old(View()), t) && Valid()
      ensures released == Asked(old(View()), t)
      ensures released.Some? <==> threads[t].phase.Cleaned?
    {
      CleanupInv(allowed, resources, View(), t);
      var r, ok := threads[t].resource, threads[t].phase == Counted;
      if r !in cbHandles {
        threads := threads[t := threads[t].(phase := Broken(ok))];
        return None;
      }
      cbHandles := cbHandles - {r};
      released := Some(((r, threads[t].blob), blobLeases[r]));
      blobLeases := blobLeases - {r};
      downloading := downloading - {r};
      threads := threads[t := threads[t].(phase := Cleaned(ok))];
    }
  }
}
