/** Clamping and coverage of the autoscale targets, and when the preemption
    rebalance matters (convoy/autoscale.py:132-195). */
module AutoscaleTargets {
  import opened Common
  import opened Autoscale
  import opened AutoscaleMeaning

  /** The numbers a valid pool and sane measurements lead to. */
  predicate Sane(i: Inputs) {
    && 0.0 <= i.minD <= i.maxD && 0.0 <= i.minL <= i.maxL
    && 0.0 <= i.capD <= i.maxD && 0.0 <= i.capL <= i.maxL
    && i.req >= 0.0 && i.preempted >= 0.0
  }

  /** Node counts that the service measures are not negative. */
  ghost predicate CountsNodes(m: Metrics) {
    && m(CurrentDedicatedNodes) >= 0.0 && m(CurrentLowPriorityNodes) >= 0.0
    && m(PreemptedLastSample) >= 0.0 && m(PreemptedAverage) >= 0.0
    && forall p :: m(PreemptedAverageOver(p)) >= 0.0
  }

  lemma InputsAreSane(pool: Pool, x: MinMax, t: TaskType, m: Metrics)
    requires Limits(pool, x) && pool.maxTasksPerNode > 0 && pool.vmCount.dedicated >= 0 && pool.vmCount.lowPriority >= 0
    requires CountsNodes(m)
    ensures Sane(InputsOf(pool, x, t, m))
  {
  }

  // ---- clamping ----------------------------------------------------------

  /** No target exceeds its configured maximum; the one computed last is not
      below its minimum either. */
  lemma TargetsClamped(bias: Bias, i: Inputs)
    requires Sane(i) && bias != OtherBias
    ensures var n := TargetNumbers(bias, i);
      && n.0 <= i.maxD && n.1 <= i.maxL
      && (if bias == LowPriority then n.0 >= i.minD else n.1 >= i.minL)
  {
  }

  /** The target computed first keeps its minimum exactly when the increment per
      evaluation lets the pool grow that far. */
  lemma FirstMinimumIff(bias: Bias, i: Inputs)
    requires Sane(i) && bias != OtherBias
    ensures var n := TargetNumbers(bias, i);
      if bias == LowPriority then n.1 >= i.minL <==> i.capL >= i.minL
      else n.0 >= i.minD <==> i.capD >= i.minD
  {
  }

  /** In one evaluation no kind of nodes grows by more than its increment, except up to
      its minimum. */
  lemma GrowthBounded(bias: Bias, pool: Pool, x: MinMax, t: TaskType, m: Metrics)
    requires Limits(pool, x) && pool.maxTasksPerNode > 0 && bias != OtherBias
    ensures var n := TargetNumbers(bias, InputsOf(pool, x, t, m));
      && n.0 <= RMax(x.minDedicated as real, m(CurrentDedicatedNodes) + x.maxIncDedicated as real)
      && n.1 <= RMax(x.minLowPriority as real, m(CurrentLowPriorityNodes) + x.maxIncLowPriority as real)
  {
  }

  // ---- what is measured ----------------------------------------------------

  /** Half way between two numbers. */
  predicate Between(d: real, a: real, b: real) {
    d + d == a + b
  }

  /** The demand in tasks that the biased scenarios go by: the last sample, or none if it
      is negative, when there are few samples or it is not below the average, and half way
      to the average when it is below. */
  lemma LastSampleRule(t: TaskType, percent: real, m: Metrics)
    ensures var d, last, average := LastSampleTasks(t, percent, m), m(TaskLastSample(t)), m(TaskAverage(t));
      && (m(TaskSamplePercent(t)) < percent ==> d >= 0.0 && d >= last && (d == last || d == 0.0))
      && (m(TaskSamplePercent(t)) >= percent && last >= average ==> d == last)
      && (m(TaskSamplePercent(t)) >= percent && last < average ==> Between(d, last, average))
  {
  }

  /** The demand in nodes: what the tasks fill, and without the bias at least one node for
      any task. */
  lemma DemandRule(pool: Pool, t: TaskType, m: Metrics)
    requires pool.maxTasksPerNode > 0
    ensures var d, n := DemandNumber(pool, t, m), pool.maxTasksPerNode as real;
      if pool.biasLastSample then Product(d, n) == LastSampleTasks(t, pool.requiredPercent, m)
      else
        var tasks := m(TaskAverageOver(t, pool.requiredPercent));
        if 0.0 < tasks < n then d == 1.0 else Product(d, n) == tasks
  {
    var n := pool.maxTasksPerNode as real;
    if pool.biasLastSample {
      Quotient(LastSampleTasks(t, pool.requiredPercent, m), n);
    } else {
      Quotient(m(TaskAverageOver(t, pool.requiredPercent)), n);
    }
  }

  lemma Quotient(a: real, b: real)
    requires b > 0.0
    ensures Product(a / b, b) == a && (a / b < 1.0 <==> a < b)
  {
  }

  /** The preempted nodes that a rebalance goes by: with the bias the last sample when
      there are few samples or it is not above the average, half way to the average when it
      is above. */
  lemma PreemptedRule(pool: Pool, m: Metrics)
    ensures var p, last, average := PreemptedNumber(pool, m), m(PreemptedLastSample), m(PreemptedAverage);
      && (pool.rebalancePercent.None? ==> p == 0.0)
      && (pool.rebalancePercent.Some? && !pool.biasLastSample ==> p == m(PreemptedAverageOver(pool.requiredPercent)))
      && (pool.rebalancePercent.Some? && pool.biasLastSample ==>
          && (m(PreemptedSamplePercent) < pool.requiredPercent ==> p >= 0.0 && p >= last && (p == last || p == 0.0))
          && (m(PreemptedSamplePercent) >= pool.requiredPercent && last <= average ==> p == last)
          && (m(PreemptedSamplePercent) >= pool.requiredPercent && last > average ==> Between(p, last, average)))
  {
  }

  /** A rebalance is due when the preempted nodes are at least the configured part of all
      nodes; without nodes, when that part is not positive. */
  lemma RebalanceRule(pool: Pool, m: Metrics)
    ensures RebalanceTruth(pool, m) <==>
      pool.rebalancePercent.Some? &&
      var total := m(CurrentDedicatedNodes) + m(CurrentLowPriorityNodes);
      if total > 0.0 then PreemptedNumber(pool, m) >= Product(pool.rebalancePercent.value, total)
      else pool.rebalancePercent.value <= 0.0
  {
    var total := m(CurrentDedicatedNodes) + m(CurrentLowPriorityNodes);
    if pool.rebalancePercent.Some? && total > 0.0 {
      PartOf(PreemptedNumber(pool, m), total, pool.rebalancePercent.value);
    }
  }

  lemma PartOf(a: real, b: real, p: real)
    requires b > 0.0
    ensures a / b >= p <==> a >= Product(p, b)
  {
    Quotient(a, b);
    var q := a / b;
    if q >= p {
      assert (q - p) * b >= 0.0;
    } else {
      assert (p - q) * b > 0.0;
    }
  }

  // ---- the rebalance -----------------------------------------------------------

  /** With one kind of nodes preferred there is nothing to redistribute that the
      capacity has not cut off already. */
  lemma RebalanceIsNoOp(low: real, cap: real, req: real, preempted: real, rebalance: bool)
    requires preempted >= 0.0
    ensures FirstTarget(req, low, cap, req, preempted, rebalance) == RMin(RMax(low, RMin(req, cap)), cap)
  {
    var first := RMax(low, RMin(req, cap));
    if req > first {
      assert first >= cap;
    }
  }

  /** Without a preferred kind it changes the targets exactly when it is on,
      nodes were preempted, and the share of the dedicated nodes leaves demand as
      well as dedicated capacity. */
  lemma AutoRebalanceMattersIff(i: Inputs)
    requires Sane(i)
    ensures var first := RMax(i.minD, RMin(Share(i), i.capD));
      TargetNumbers(Auto, i) != TargetNumbers(Auto, i.(rebalance := false)) <==>
        i.rebalance && i.preempted > 0.0 && i.req > first && first < i.capD
  {
    assert Share(i.(rebalance := false)) == Share(i);
  }

  /** The target statements without the redistribution. */
  function FastTargets(bias: Bias): seq<Stmt>
    requires bias == Dedicated || bias == LowPriority
  {
    if bias == Dedicated then
      [ Clamp(DedicatedVMs, MinTargetDedicated, ReqVMs, MaxDedicatedVMs),
        Assign(DedicatedVMs, Bin(MinOf, Read(DedicatedVMs), Read(MaxDedicatedVMs))) ]
      + Rest(DedicatedVMs, LowPriVMs, MinTargetLowPriority, MaxLowPriVMs, TargetDedicatedNodes, TargetLowPriorityNodes)
    else
      [ Clamp(LowPriVMs, MinTargetLowPriority, ReqVMs, MaxLowPriVMs),
        Assign(LowPriVMs, Bin(MinOf, Read(LowPriVMs), Read(MaxLowPriVMs))) ]
      + Rest(LowPriVMs, DedicatedVMs, MinTargetDedicated, MaxDedicatedVMs, TargetLowPriorityNodes, TargetDedicatedNodes)
  }

  /** A whole formula that never looks at preemptions. */
  function FastFormula(pool: Pool, x: MinMax, t: TaskType): seq<Stmt>
    requires pool.bias == Dedicated || pool.bias == LowPriority
  {
    Header(x) + (Demand(pool, t) + Capacities()) + FastTargets(pool.bias)
  }

  lemma CapMeans(env: Env, m: Metrics, v: Var, cap: Var, x: real, c: real)
    requires Is(env, v, x) && Is(env, cap, c)
    ensures Do(Assign(v, Bin(MinOf, Read(v), Read(cap))), env, m) == Some(env[v := Num(RMin(x, c))])
  {
  }

  lemma FastClampMeans(env: Env, m: Metrics, i: Inputs, v: Var, low: Var, cap: Var, a: real, c: real) returns (after: Env)
    requires HasFewInputs(env, i) && (v == DedicatedVMs || v == LowPriVMs) && cap != v
    requires Is(env, low, a) && Is(env, cap, c)
    ensures Exec([Clamp(v, low, ReqVMs, cap), Assign(v, Bin(MinOf, Read(v), Read(cap)))], env, m) == Some(after)
    ensures HasFewInputs(after, i) && Is(after, v, RMin(RMax(a, RMin(i.req, c)), c))
  {
    var x := RMax(a, RMin(i.req, c));
    ClampMeans(env, m, v, low, ReqVMs, cap, a, i.req, c);
    var e1 := env[v := Num(x)];
    CapMeans(e1, m, v, cap, x, c);
    after := e1[v := Num(RMin(x, c))];
    ExecAlong([Clamp(v, low, ReqVMs, cap), Assign(v, Bin(MinOf, Read(v), Read(cap)))], [env, e1, after], m);
  }

  lemma FastTargetsMean(bias: Bias, env: Env, m: Metrics, i: Inputs) returns (after: Env)
    requires (bias == Dedicated || bias == LowPriority) && HasFewInputs(env, i) && i.preempted >= 0.0
    ensures Exec(FastTargets(bias), env, m) == Some(after)
    ensures var n := TargetNumbers(bias, i); Reaches(after, n.0, n.1)
  {
    if bias == Dedicated {
      RebalanceIsNoOp(i.minD, i.capD, i.req, i.preempted, i.rebalance);
      var e1 := FastClampMeans(env, m, i, DedicatedVMs, MinTargetDedicated, MaxDedicatedVMs, i.minD, i.capD);
      after := RestMeans(e1, m, DedicatedVMs, LowPriVMs, MinTargetLowPriority, MaxLowPriVMs, TargetDedicatedNodes,
        TargetLowPriorityNodes, i.req, RMin(RMax(i.minD, RMin(i.req, i.capD)), i.capD), i.minL, i.capL);
      ExecConcat(FastTargets(bias)[..2], FastTargets(bias)[2..], env, m);
      assert FastTargets(bias) == FastTargets(bias)[..2] + FastTargets(bias)[2..];
    } else {
      RebalanceIsNoOp(i.minL, i.capL, i.req, i.preempted, i.rebalance);
      var e1 := FastClampMeans(env, m, i, LowPriVMs, MinTargetLowPriority, MaxLowPriVMs, i.minL, i.capL);
      after := RestMeans(e1, m, LowPriVMs, DedicatedVMs, MinTargetDedicated, MaxDedicatedVMs, TargetLowPriorityNodes,
        TargetDedicatedNodes, i.req, RMin(RMax(i.minL, RMin(i.req, i.capL)), i.capL), i.minD, i.capD);
      ExecConcat(FastTargets(bias)[..2], FastTargets(bias)[2..], env, m);
      assert FastTargets(bias) == FastTargets(bias)[..2] + FastTargets(bias)[2..];
    }
  }

  /** The formula without any look at preemptions sets the same targets. */
  lemma FastFormulaAgrees(pool: Pool, x: MinMax, t: TaskType, m: Metrics) returns (slow: Env, fast: Env, d: real, l: real)
    requires Limits(pool, x) && pool.maxTasksPerNode > 0 && (pool.bias == Dedicated || pool.bias == LowPriority)
    requires CountsNodes(m)
    ensures Exec(Formula(pool, x, t, Targets(pool.bias).value), map[], m) == Some(slow) && Reaches(slow, d, l)
    ensures Exec(FastFormula(pool, x, t), map[], m) == Some(fast) && Reaches(fast, d, l)
  {
    var i := InputsOf(pool, x, t, m);
    slow := FormulaMeans(pool, x, t, m);
    d, l := TargetNumbers(pool.bias, i).0, TargetNumbers(pool.bias, i).1;
    var h, q, c := Header(x), Demand(pool, t), Capacities();
    var e0: Env := map[];
    var e1 := HeaderMeans(m, x);
    var e2 := DemandMeans(e1, m, pool, x, t);
    var e3 := CapacitiesSet(e2, m, pool, x, t);
    fast := FastTargetsMean(pool.bias, e3, m, i);
    ExecConcat(q, c, e1, m);
    ExecConcat(h, q + c, e0, m);
    ExecConcat(h + (q + c), FastTargets(pool.bias), e0, m);
  }

  // ---- coverage ----------------------------------------------------------

  /** With one kind of nodes preferred the two targets cover the demand beyond the
      minimums, as far as the two capacities together allow. */
  lemma DemandCovered(bias: Bias, i: Inputs)
    requires Sane(i) && (bias == Dedicated || bias == LowPriority)
    ensures var n := TargetNumbers(bias, i); n.0 + n.1 >= RMin(i.req, i.capD + i.capL)
  {
    RebalanceIsNoOp(i.minD, i.capD, i.req, i.preempted, i.rebalance);
    RebalanceIsNoOp(i.minL, i.capL, i.req, i.preempted, i.rebalance);
  }

  /** Without a preferred kind the dedicated nodes get half of the demand even if
      the low priority nodes cannot take the other half. */
  lemma AutoLeavesDemand()
    ensures var i := Inputs(0.0, 0.0, 10.0, 1.0, 10.0, 1.0, 10.0, 0.0, false);
      Sane(i) && TargetNumbers(Auto, i) == (5.0, 1.0) && 5.0 + 1.0 < RMin(i.req, i.capD + i.capL)
  {
  }

  /** Without a preferred kind, the residual demand is covered exactly when it is
      within what the dedicated nodes get and what the other kind can or must get on
      top, or the dedicated capacity is used up, or what the dedicated nodes leave of
      all capacity is within the minimum of the other kind. What the dedicated nodes get
      is their share within its limits, and the preempted nodes in a rebalance. */
  lemma AutoCoversIff(i: Inputs)
    requires Sane(i)
    ensures var n := TargetNumbers(Auto, i);
      var got := RMax(i.minD, RMin(Share(i), i.capD)) + if i.rebalance then i.preempted else 0.0;
      n.0 + n.1 >= RMin(i.req, i.capD + i.capL) <==>
        i.req <= got + RMax(i.minL, i.capL) || got >= i.capD || i.capD + i.capL <= got + i.minL
  {
  }

  /** When the demand itself, and not only what it exceeds the minimums by, is
      covered as far as the capacities go: r is that excess, F the kind whose
      target comes first and S the other. */
  predicate RawCovered(demand: real, minF: real, minS: real, capF: real, capS: real) {
    var r := demand - minF - minS;
    if r <= 0.0 then capF >= minF || demand <= capF + minS || capS <= minS
    else if r <= capF then minF == 0.0 || capF + capS - minS <= r || capF + capS - minS <= RMin(minF, capF)
    else minF + minS == 0.0 || capS <= minS || r >= capF + capS
  }

  predicate WholeDemandCovered(bias: Bias, i: Inputs, demand: real) {
    if bias == Dedicated then RawCovered(demand, i.minD, i.minL, i.capD, i.capL)
    else RawCovered(demand, i.minL, i.minD, i.capL, i.capD)
  }

  /** The minimums are subtracted from the demand but the targets are not counted
      from them. So with one kind of nodes preferred, the two targets cover the
      demand exactly under the condition above. */
  lemma RawCoverageIff(bias: Bias, i: Inputs, demand: real)
    requires Sane(i) && (bias == Dedicated || bias == LowPriority)
    requires i.req == RMax(0.0, demand - i.minD - i.minL)
    ensures var n := TargetNumbers(bias, i);
      n.0 + n.1 >= RMin(demand, i.capD + i.capL) <==> WholeDemandCovered(bias, i, demand)
  {
    if bias == Dedicated {
      RebalanceIsNoOp(i.minD, i.capD, i.req, i.preempted, i.rebalance);
      RawCoverage(demand, i.minD, i.minL, i.capD, i.capL);
    } else {
      RebalanceIsNoOp(i.minL, i.capL, i.req, i.preempted, i.rebalance);
      RawCoverage(demand, i.minL, i.minD, i.capL, i.capD);
    }
  }

  lemma RawCoverage(demand: real, minF: real, minS: real, capF: real, capS: real)
    requires minF >= 0.0 && minS >= 0.0 && capF >= 0.0 && capS >= 0.0
    ensures var r := RMax(0.0, demand - minF - minS);
      var f := RMin(RMax(minF, RMin(r, capF)), capF);
      f + SecondTarget(r, f, minS, capS) >= RMin(demand, capF + capS) <==> RawCovered(demand, minF, minS, capF, capS)
  {
  }

  /** A demand of twice the minimum of the preferred kind is not met although there
      is capacity for it. */
  lemma MinimumsHideDemand(minD: real, minL: real, capD: real, capL: real)
    requires minD > 0.0 && minL >= 0.0 && capD >= 2.0 * minD + minL && capL >= minL
    ensures var demand := 2.0 * minD + minL;
      var i := Inputs(minD, minL, capD, capL, capD, capL, RMax(0.0, demand - minD - minL), 0.0, false);
      var n := TargetNumbers(Dedicated, i);
      Sane(i) && n.0 + n.1 < RMin(demand, i.capD + i.capL)
  {
  }

  // ---- the evaluated formula -----------------------------------------------

  /** A pool as its configuration admits it. */
  predicate Configured(pool: Pool, x: MinMax) {
    && Limits(pool, x) && pool.maxTasksPerNode > 0 && pool.bias != OtherBias
    && pool.vmCount.dedicated >= 0 && pool.vmCount.lowPriority >= 0
  }

  /** For every valid configuration and every measurement, evaluating the formula
      succeeds; each target is at most its maximum, the second one at least its
      minimum and the first one exactly if the increment allows it; with one kind
      preferred they cover the residual demand as far as the capacities go, and the
      whole demand exactly under the condition above. */
  lemma EvaluatedTargets(pool: Pool, x: MinMax, t: TaskType, m: Metrics) returns (after: Env, d: real, l: real)
    requires Configured(pool, x) && CountsNodes(m)
    ensures Exec(Formula(pool, x, t, Targets(pool.bias).value), map[], m) == Some(after) && Reaches(after, d, l)
    ensures d <= x.maxDedicated as real && l <= x.maxLowPriority as real
    ensures var i := InputsOf(pool, x, t, m);
      && (pool.bias == LowPriority ==> d >= i.minD && (l >= i.minL <==> i.capL >= i.minL))
      && (pool.bias != LowPriority ==> l >= i.minL && (d >= i.minD <==> i.capD >= i.minD))
      && (pool.bias != Auto ==> d + l >= RMin(i.req, i.capD + i.capL))
      && (pool.bias != Auto ==>
          (d + l >= RMin(DemandNumber(pool, t, m), i.capD + i.capL) <==>
           WholeDemandCovered(pool.bias, i, DemandNumber(pool, t, m))))
  {
    var i := InputsOf(pool, x, t, m);
    after := FormulaMeans(pool, x, t, m);
    d, l := TargetNumbers(pool.bias, i).0, TargetNumbers(pool.bias, i).1;
    InputsAreSane(pool, x, t, m);
    TargetsClamped(pool.bias, i);
    FirstMinimumIff(pool.bias, i);
    if pool.bias != Auto {
      DemandCovered(pool.bias, i);
      RawCoverageIff(pool.bias, i, DemandNumber(pool, t, m));
    }
  }
}
