/** What the generated autoscale formulas compute (convoy/autoscale.py:42-221). */
module AutoscaleMeaning {
  import opened Common
  import opened Autoscale

  // ---- the targets as numbers ------------------------------------------------

  /** What is redistributed to the first kind of nodes after preemptions. */
  function Redistributed(req: real, first: real, preempted: real, rebalance: bool): real {
    var remaining := RMax(0.0, req - first);
    if rebalance && remaining > 0.0 then RMin(preempted, remaining) else 0.0
  }

  /** The first target once it is clamped and redistributed to. */
  function FirstTarget(want: real, low: real, cap: real, req: real, preempted: real, rebalance: bool): real {
    var first := RMax(low, RMin(want, cap));
    RMin(first + Redistributed(req, first, preempted, rebalance), cap)
  }

  function SecondTarget(req: real, first: real, low: real, cap: real): real {
    RMax(low, RMin(RMax(0.0, req - first), cap))
  }

  /** Everything the target statements depend on. */
  datatype Inputs = Inputs(minD: real, minL: real, maxD: real, maxL: real, capD: real, capL: real, req: real,
                           preempted: real, rebalance: bool)

  /** Half the demand, all of it if the other kind is not allowed; not less than
      one node. */
  function Share(i: Inputs): real {
    var s := i.req / if i.maxD == 0.0 || i.maxL == 0.0 then 1.0 else 2.0;
    if s > 0.0 && s < 1.0 then 1.0 else s
  }

  /** (dedicated, low priority) */
  function TargetNumbers(bias: Bias, i: Inputs): (real, real) {
    if bias == LowPriority then
      var l := FirstTarget(i.req, i.minL, i.capL, i.req, i.preempted, i.rebalance);
      (SecondTarget(i.req, l, i.minD, i.capD), l)
    else
      var d := FirstTarget(if bias == Auto then Share(i) else i.req, i.minD, i.capD, i.req, i.preempted, i.rebalance);
      (d, SecondTarget(i.req, d, i.minL, i.capL))
  }

  // ---- running blocks of statements ------------------------------------------

  predicate Is(env: Env, v: Var, x: real) {
    v in env && env[v] == Num(x)
  }

  predicate Holds(env: Env, v: Var, b: bool) {
    v in env && env[v] == Truth(b)
  }

  lemma ExecOne(s: Stmt, env: Env, m: Metrics)
    ensures Exec([s], env, m) == Do(s, env, m)
  {
    assert [s][..0] == [];
  }

  /** Statements one after the other lead along the given environments. */
  lemma {:induction false} ExecAlong(p: seq<Stmt>, envs: seq<Env>, m: Metrics)
    requires |envs| == |p| + 1 && forall k | 0 <= k < |p| :: Do(p[k], envs[k], m) == Some(envs[k + 1])
    ensures Exec(p, envs[0], m) == Some(envs[|p|])
  {
    if p != [] {
      var n := |p| - 1;
      ExecAlong(p[..n], envs[..n + 1], m);
    }
  }

  lemma ClampMeans(env: Env, m: Metrics, v: Var, low: Var, want: Var, cap: Var, a: real, b: real, c: real)
    requires Is(env, low, a) && Is(env, want, b) && Is(env, cap, c)
    ensures Do(Clamp(v, low, want, cap), env, m) == Some(env[v := Num(RMax(a, RMin(b, c)))])
  {
    assert Eval(Bin(MinOf, Read(want), Read(cap)), env, m) == Some(Num(RMin(b, c)));
  }

  lemma RemainingMeans(env: Env, m: Metrics, v: Var, req: real, x: real)
    requires Is(env, ReqVMs, req) && Is(env, v, x)
    ensures Do(Remaining(v), env, m) == Some(env[RemainingVMs := Num(RMax(0.0, req - x))])
  {
    assert Eval(Bin(Sub, Read(ReqVMs), Read(v)), env, m) == Some(Num(req - x));
  }

  lemma RedistVMsMeans(env: Env, m: Metrics, e: Expr, remaining: real, preempted: real, rebalance: bool)
    requires Is(env, RemainingVMs, remaining) && Is(env, PreemptCount, preempted) && Holds(env, Rebalance, rebalance)
    requires e == If(Bin(And, Read(Rebalance), Bin(Gt, Read(RemainingVMs), Lit(0.0))),
      Bin(MinOf, Read(PreemptCount), Read(RemainingVMs)), Lit(0.0))
    ensures Eval(e, env, m) == Some(Num(if rebalance && remaining > 0.0 then RMin(preempted, remaining) else 0.0))
  {
    assert Eval(Bin(Gt, Read(RemainingVMs), Lit(0.0)), env, m) == Some(Truth(remaining > 0.0));
    assert Eval(Bin(And, Read(Rebalance), Bin(Gt, Read(RemainingVMs), Lit(0.0))), env, m)
        == Some(Truth(rebalance && remaining > 0.0));
    assert Eval(Bin(MinOf, Read(PreemptCount), Read(RemainingVMs)), env, m) == Some(Num(RMin(preempted, remaining)));
  }

  /** The numbers of demand and capacity. */
  predicate HasFewInputs(env: Env, i: Inputs) {
    && Is(env, MinTargetDedicated, i.minD) && Is(env, MinTargetLowPriority, i.minL)
    && Is(env, MaxDedicatedVMs, i.capD) && Is(env, MaxLowPriVMs, i.capL) && Is(env, ReqVMs, i.req)
  }

  /** The environment holds all the inputs. */
  predicate HasInputs(env: Env, i: Inputs) {
    && HasFewInputs(env, i)
    && Is(env, MaxTargetDedicated, i.maxD) && Is(env, MaxTargetLowPriority, i.maxL)
    && Is(env, PreemptCount, i.preempted) && Holds(env, Rebalance, i.rebalance)
  }

  lemma CappedSumMeans(env: Env, m: Metrics, v: Var, cap: Var, x: real, y: real, c: real)
    requires Is(env, v, x) && Is(env, RedistVMs, y) && Is(env, cap, c)
    ensures Do(Assign(v, Bin(MinOf, Bin(Add, Read(v), Read(RedistVMs)), Read(cap))), env, m)
         == Some(env[v := Num(RMin(x + y, c))])
  {
    assert Eval(Bin(Add, Read(v), Read(RedistVMs)), env, m) == Some(Num(x + y));
  }

  /** Setting the two auxiliary variables, and then v, leaves the inputs alone. */
  lemma RedistributeKeeps(env: Env, i: Inputs, v: Var, cap: Var, x: real, c: real, remaining: real, redist: real)
    requires v == DedicatedVMs || v == LowPriVMs
    requires cap != RemainingVMs && cap != RedistVMs && cap != v
    requires HasInputs(env, i) && Is(env, v, x) && Is(env, cap, c)
    ensures var e1 := env[RemainingVMs := Num(remaining)];
      var e2 := e1[RedistVMs := Num(redist)];
      && HasInputs(e1, i) && Is(e1, RemainingVMs, remaining)
      && HasInputs(e2, i) && Is(e2, v, x) && Is(e2, RedistVMs, redist) && Is(e2, cap, c)
      && forall y :: HasInputs(e2[v := Num(y)], i)
  {
  }

  lemma RedistributeMeans(env: Env, m: Metrics, i: Inputs, v: Var, cap: Var, x: real, c: real) returns (after: Env)
    requires v == DedicatedVMs || v == LowPriVMs
    requires cap != RemainingVMs && cap != RedistVMs && cap != v
    requires HasInputs(env, i) && Is(env, v, x) && Is(env, cap, c)
    ensures Exec(Redistribute(v, cap), env, m) == Some(after) && HasInputs(after, i)
    ensures Is(after, v, RMin(x + Redistributed(i.req, x, i.preempted, i.rebalance), c))
  {
    var p := Redistribute(v, cap);
    var redist := Redistributed(i.req, x, i.preempted, i.rebalance);
    var e1 := env[RemainingVMs := Num(RMax(0.0, i.req - x))];
    var e2 := e1[RedistVMs := Num(redist)];
    RedistributeKeeps(env, i, v, cap, x, c, RMax(0.0, i.req - x), redist);
    RemainingMeans(env, m, v, i.req, x);
    RedistVMsMeans(e1, m, p[1].e, RMax(0.0, i.req - x), i.preempted, i.rebalance);
    after := e2[v := Num(RMin(x + redist, c))];
    CappedSumMeans(e2, m, v, cap, x, redist, c);
    ExecAlong(p, [env, e1, e2, after], m);
  }

  lemma CopyMeans(env: Env, m: Metrics, v: Var, w: Var, x: real)
    requires Is(env, w, x)
    ensures Do(Assign(v, Read(w)), env, m) == Some(env[v := Num(x)])
  {
  }

  lemma RestMeans(env: Env, m: Metrics, first: Var, second: Var, low: Var, cap: Var, t1: Var, t2: Var,
                  req: real, x: real, a: real, c: real)
    returns (after: Env)
    requires (first == DedicatedVMs && second == LowPriVMs) || (first == LowPriVMs && second == DedicatedVMs)
    requires low != RemainingVMs && cap != RemainingVMs
    requires t1 != t2 && t1 != first && t1 != second && t2 != first && t2 != second
    requires Is(env, ReqVMs, req) && Is(env, first, x) && Is(env, low, a) && Is(env, cap, c)
    ensures Exec(Rest(first, second, low, cap, t1, t2), env, m) == Some(after)
    ensures Is(after, t1, x) && Is(after, t2, SecondTarget(req, x, a, c))
  {
    var y := SecondTarget(req, x, a, c);
    var e1 := env[RemainingVMs := Num(RMax(0.0, req - x))];
    RemainingMeans(env, m, first, req, x);
    var e2 := e1[second := Num(y)];
    ClampMeans(e1, m, second, low, RemainingVMs, cap, a, RMax(0.0, req - x), c);
    var e3 := e2[t1 := Num(x)];
    CopyMeans(e2, m, t1, first, x);
    after := e3[t2 := Num(y)];
    CopyMeans(e3, m, t2, second, y);
    ExecAlong(Rest(first, second, low, cap, t1, t2), [env, e1, e2, e3, after], m);
  }

  // ---- the target statements -------------------------------------------------

  predicate Reaches(after: Env, d: real, l: real) {
    Is(after, TargetDedicatedNodes, d) && Is(after, TargetLowPriorityNodes, l)
  }

  lemma Clamped(env: Env, m: Metrics, i: Inputs, v: Var, low: Var, want: Var, cap: Var, a: real, b: real, c: real)
    returns (after: Env)
    requires HasInputs(env, i) && (v == DedicatedVMs || v == LowPriVMs) && Is(env, low, a) && Is(env, want, b) && Is(env, cap, c)
    ensures Do(Clamp(v, low, want, cap), env, m) == Some(after)
    ensures HasInputs(after, i) && Is(after, v, RMax(a, RMin(b, c)))
  {
    ClampMeans(env, m, v, low, want, cap, a, b, c);
    after := env[v := Num(RMax(a, RMin(b, c)))];
  }

  lemma InTurn(c: Stmt, p: seq<Stmt>, q: seq<Stmt>, env: Env, e1: Env, e2: Env, e3: Env, m: Metrics)
    requires Do(c, env, m) == Some(e1) && Exec(p, e1, m) == Some(e2) && Exec(q, e2, m) == Some(e3)
    ensures Exec([c] + p + q, env, m) == Some(e3)
  {
    ExecOne(c, env, m);
    ExecConcat([c], p, env, m);
    ExecConcat([c] + p, q, env, m);
  }

  /** Clamp, redistribute, rest: the common tail of all three variants. */
  lemma DedicatedFirst(env: Env, m: Metrics, i: Inputs, wantVar: Var, want: real) returns (after: Env)
    requires HasInputs(env, i) && Is(env, wantVar, want)
    ensures Exec([Clamp(DedicatedVMs, MinTargetDedicated, wantVar, MaxDedicatedVMs)]
      + Redistribute(DedicatedVMs, MaxDedicatedVMs)
      + Rest(DedicatedVMs, LowPriVMs, MinTargetLowPriority, MaxLowPriVMs, TargetDedicatedNodes, TargetLowPriorityNodes),
      env, m) == Some(after)
    ensures var d := FirstTarget(want, i.minD, i.capD, i.req, i.preempted, i.rebalance);
      Reaches(after, d, SecondTarget(i.req, d, i.minL, i.capL))
  {
    var c := Clamp(DedicatedVMs, MinTargetDedicated, wantVar, MaxDedicatedVMs);
    var p, q := Redistribute(DedicatedVMs, MaxDedicatedVMs),
        Rest(DedicatedVMs, LowPriVMs, MinTargetLowPriority, MaxLowPriVMs, TargetDedicatedNodes, TargetLowPriorityNodes);
    var x := RMax(i.minD, RMin(want, i.capD));
    var e1 := Clamped(env, m, i, DedicatedVMs, MinTargetDedicated, wantVar, MaxDedicatedVMs, i.minD, want, i.capD);
    var e2 := RedistributeMeans(e1, m, i, DedicatedVMs, MaxDedicatedVMs, x, i.capD);
    var d := FirstTarget(want, i.minD, i.capD, i.req, i.preempted, i.rebalance);
    after := RestMeans(e2, m, DedicatedVMs, LowPriVMs, MinTargetLowPriority, MaxLowPriVMs, TargetDedicatedNodes,
      TargetLowPriorityNodes, i.req, d, i.minL, i.capL);
    InTurn(c, p, q, env, e1, e2, after, m);
  }

  lemma LowPriorityFirst(env: Env, m: Metrics, i: Inputs) returns (after: Env)
    requires HasInputs(env, i)
    ensures Exec(Targets(LowPriority).value, env, m) == Some(after)
    ensures var t := TargetNumbers(LowPriority, i); Reaches(after, t.0, t.1)
  {
    var c := Clamp(LowPriVMs, MinTargetLowPriority, ReqVMs, MaxLowPriVMs);
    var p, q := Redistribute(LowPriVMs, MaxLowPriVMs),
        Rest(LowPriVMs, DedicatedVMs, MinTargetDedicated, MaxDedicatedVMs, TargetLowPriorityNodes, TargetDedicatedNodes);
    var x := RMax(i.minL, RMin(i.req, i.capL));
    var e1 := Clamped(env, m, i, LowPriVMs, MinTargetLowPriority, ReqVMs, MaxLowPriVMs, i.minL, i.req, i.capL);
    var e2 := RedistributeMeans(e1, m, i, LowPriVMs, MaxLowPriVMs, x, i.capL);
    var l := FirstTarget(i.req, i.minL, i.capL, i.req, i.preempted, i.rebalance);
    after := RestMeans(e2, m, LowPriVMs, DedicatedVMs, MinTargetDedicated, MaxDedicatedVMs, TargetLowPriorityNodes,
      TargetDedicatedNodes, i.req, l, i.minD, i.capD);
    InTurn(c, p, q, env, e1, e2, after, m);
  }

  lemma DivisorMeans(env: Env, m: Metrics, i: Inputs, e: Expr)
    requires HasInputs(env, i) && e == AutoShare()[0].e
    ensures Eval(e, env, m) == Some(Num(if i.maxD == 0.0 || i.maxL == 0.0 then 1.0 else 2.0))
  {
    assert Eval(Bin(Eq, Read(MaxTargetDedicated), Lit(0.0)), env, m) == Some(Truth(i.maxD == 0.0));
    assert Eval(Bin(Eq, Read(MaxTargetLowPriority), Lit(0.0)), env, m) == Some(Truth(i.maxL == 0.0));
    assert Eval(e.cond, env, m) == Some(Truth(i.maxD == 0.0 || i.maxL == 0.0));
  }

  lemma DivisionMeans(env: Env, m: Metrics, v: Var, a: Var, b: Var, x: real, y: real)
    requires Is(env, a, x) && Is(env, b, y) && y != 0.0
    ensures Do(Assign(v, Bin(Div, Read(a), Read(b))), env, m) == Some(env[v := Num(x / y)])
  {
    assert Eval(Read(a), env, m) == Some(Num(x)) && Eval(Read(b), env, m) == Some(Num(y));
    assert Eval(Bin(Div, Read(a), Read(b)), env, m) == Some(Num(x / y));
  }

  /** What the first two statements leave. */
  function Shared(env: Env, divisor: real, s: real): Env {
    env[Divisor := Num(divisor)][DedicatedVMs := Num(s)]
  }

  lemma SharedHasInputs(env: Env, i: Inputs, divisor: real, s: real)
    requires HasInputs(env, i)
    ensures HasInputs(env[Divisor := Num(divisor)], i) && Is(env[Divisor := Num(divisor)], Divisor, divisor)
    ensures HasInputs(Shared(env, divisor, s), i) && Is(Shared(env, divisor, s), DedicatedVMs, s)
    ensures HasInputs(Shared(env, divisor, s)[DedicatedVMs := Num(Share(i))], i)
  {
  }

  lemma ShareIsAtLeastOne(env: Env, m: Metrics, i: Inputs, divisor: real, s: real)
    requires Is(env, DedicatedVMs, s) && divisor == (if i.maxD == 0.0 || i.maxL == 0.0 then 1.0 else 2.0)
    requires s == i.req / divisor
    ensures Do(AutoShare()[2], env, m) == Some(env[DedicatedVMs := Num(Share(i))])
  {
    AtLeastOneMeans(env, m, DedicatedVMs, DedicatedVMs, s, s);
  }

  lemma ShareMeans(env: Env, m: Metrics, i: Inputs) returns (after: Env)
    requires HasInputs(env, i)
    ensures Exec(AutoShare(), env, m) == Some(after) && HasInputs(after, i) && Is(after, DedicatedVMs, Share(i))
  {
    var p := AutoShare();
    var divisor := if i.maxD == 0.0 || i.maxL == 0.0 then 1.0 else 2.0;
    var s := i.req / divisor;
    var e1, e2 := env[Divisor := Num(divisor)], Shared(env, divisor, s);
    SharedHasInputs(env, i, divisor, s);
    DivisorMeans(env, m, i, p[0].e);
    DivisionMeans(e1, m, DedicatedVMs, ReqVMs, Divisor, i.req, divisor);
    ShareIsAtLeastOne(e2, m, i, divisor, s);
    after := e2[DedicatedVMs := Num(Share(i))];
    ExecAlong(p, [env, e1, e2, after], m);
  }

  /** (v > 0 && w < 1) ? 1 : w */
  lemma AtLeastOneMeans(env: Env, m: Metrics, v: Var, w: Var, x: real, y: real)
    requires Is(env, v, x) && Is(env, w, y)
    ensures Eval(If(Bin(And, Bin(Gt, Read(v), Lit(0.0)), Bin(Lt, Read(w), Lit(1.0))), Lit(1.0), Read(w)), env, m)
         == Some(Num(if x > 0.0 && y < 1.0 then 1.0 else y))
  {
    assert Eval(Bin(Gt, Read(v), Lit(0.0)), env, m) == Some(Truth(x > 0.0));
    assert Eval(Bin(Lt, Read(w), Lit(1.0)), env, m) == Some(Truth(y < 1.0));
    assert Eval(Bin(And, Bin(Gt, Read(v), Lit(0.0)), Bin(Lt, Read(w), Lit(1.0))), env, m) == Some(Truth(x > 0.0 && y < 1.0));
  }

  /** The target statements never fail, and set the two targets to the numbers. */
  lemma TargetsMean(bias: Bias, env: Env, m: Metrics, i: Inputs) returns (after: Env)
    requires HasInputs(env, i) && bias != OtherBias
    ensures Exec(Targets(bias).value, env, m) == Some(after)
    ensures var t := TargetNumbers(bias, i); Reaches(after, t.0, t.1)
  {
    match bias {
      case Auto =>
        var shared := ShareMeans(env, m, i);
        after := DedicatedFirst(shared, m, i, DedicatedVMs, Share(i));
        var c := [Clamp(DedicatedVMs, MinTargetDedicated, DedicatedVMs, MaxDedicatedVMs)];
        var p, q := Redistribute(DedicatedVMs, MaxDedicatedVMs),
            Rest(DedicatedVMs, LowPriVMs, MinTargetLowPriority, MaxLowPriVMs, TargetDedicatedNodes, TargetLowPriorityNodes);
        ExecConcat(AutoShare(), c + p + q, env, m);
        assert AutoShare() + (c + p + q) == AutoShare() + c + p + q;
      case Dedicated => after := DedicatedFirst(env, m, i, ReqVMs, i.req);
      case LowPriority => after := LowPriorityFirst(env, m, i);
    }
  }

  // ---- the statements before them ----------------------------------------------

  /** The environment holds the limits. */
  predicate HasLimits(env: Env, x: MinMax) {
    && Is(env, MaxTasksPerNode, x.maxTasksPerNode as real)
    && Is(env, MinTargetDedicated, x.minDedicated as real) && Is(env, MinTargetLowPriority, x.minLowPriority as real)
    && Is(env, MaxTargetDedicated, x.maxDedicated as real) && Is(env, MaxTargetLowPriority, x.maxLowPriority as real)
    && Is(env, MaxIncDedicated, x.maxIncDedicated as real) && Is(env, MaxIncLowPriority, x.maxIncLowPriority as real)
  }

  lemma HeaderMeans(m: Metrics, x: MinMax) returns (after: Env)
    ensures Exec(Header(x), map[], m) == Some(after) && HasLimits(after, x)
  {
    var e0: Env := map[];
    var e1 := e0[MaxTasksPerNode := Num(x.maxTasksPerNode as real)];
    var e2 := e1[MinTargetDedicated := Num(x.minDedicated as real)];
    var e3 := e2[MinTargetLowPriority := Num(x.minLowPriority as real)];
    var e4 := e3[MaxTargetDedicated := Num(x.maxDedicated as real)];
    var e5 := e4[MaxTargetLowPriority := Num(x.maxLowPriority as real)];
    var e6 := e5[MaxIncDedicated := Num(x.maxIncDedicated as real)];
    after := e6[MaxIncLowPriority := Num(x.maxIncLowPriority as real)];
    ExecAlong(Header(x), [e0, e1, e2, e3, e4, e5, e6, after], m);
  }

  /** The average number of tasks, as the last-sample variant has it. */
  function LastSampleTasks(t: TaskType, percent: real, m: Metrics): real {
    var last, few := m(TaskLastSample(t)), m(TaskSamplePercent(t)) < percent;
    var average := if few then RMax(0.0, last) else m(TaskAverage(t));
    if few then RMax(0.0, last) else if last < average then (last + average) / 2.0 else RMax(last, average)
  }

  /** The demand in nodes. */
  function DemandNumber(pool: Pool, t: TaskType, m: Metrics): real
    requires pool.maxTasksPerNode > 0
  {
    var n := pool.maxTasksPerNode as real;
    if pool.biasLastSample then LastSampleTasks(t, pool.requiredPercent, m) / n
    else
      var tasks := m(TaskAverageOver(t, pool.requiredPercent));
      if tasks > 0.0 && tasks / n < 1.0 then 1.0 else tasks / n
  }

  function PreemptedNumber(pool: Pool, m: Metrics): real {
    if pool.rebalancePercent.None? then 0.0
    else if !pool.biasLastSample then m(PreemptedAverageOver(pool.requiredPercent))
    else
      var last, average := m(PreemptedLastSample), m(PreemptedAverage);
      if m(PreemptedSamplePercent) < pool.requiredPercent then RMax(0.0, last)
      else if last > average then (last + average) / 2.0 else RMin(last, average)
  }

  function RebalanceTruth(pool: Pool, m: Metrics): bool {
    && pool.rebalancePercent.Some?
    && var total := m(CurrentDedicatedNodes) + m(CurrentLowPriorityNodes);
       (if total > 0.0 then PreemptedNumber(pool, m) / total else 0.0) >= pool.rebalancePercent.value
  }

  /** What the target statements work on. */
  function InputsOf(pool: Pool, x: MinMax, t: TaskType, m: Metrics): Inputs
    requires pool.maxTasksPerNode > 0
  {
    var minD, minL, maxD, maxL :=
      x.minDedicated as real, x.minLowPriority as real, x.maxDedicated as real, x.maxLowPriority as real;
    Inputs(minD, minL, maxD, maxL,
      RMin(m(CurrentDedicatedNodes) + x.maxIncDedicated as real, maxD),
      RMin(m(CurrentLowPriorityNodes) + x.maxIncLowPriority as real, maxL),
      RMax(0.0, DemandNumber(pool, t, m) - minD - minL), PreemptedNumber(pool, m), RebalanceTruth(pool, m))
  }

  lemma LookbackMeans(env: Env, m: Metrics, seconds: real)
    ensures Do(Assign(Sli, Bin(Mul, Sample(TimeIntervalSecond), Lit(seconds))), env, m)
         == Some(env[Sli := Num(Product(m(TimeIntervalSecond), seconds))])
  {
    assert Eval(Sample(TimeIntervalSecond), env, m) == Some(Num(m(TimeIntervalSecond)));
    assert Eval(Lit(seconds), env, m) == Some(Num(seconds));
  }

  lemma FewSamplesMeans(env: Env, m: Metrics, v: Var, last: Var, percent: real, other: Expr, p: real, x: real, y: real)
    requires Is(env, v, p) && Is(env, last, x) && Eval(other, env, m) == Some(Num(y))
    ensures Eval(If(Bin(Lt, Read(v), Lit(percent)), Bin(MaxOf, Lit(0.0), Read(last)), other), env, m)
         == Some(Num(if p < percent then RMax(0.0, x) else y))
  {
    assert Eval(Bin(Lt, Read(v), Lit(percent)), env, m) == Some(Truth(p < percent));
    assert Eval(Bin(MaxOf, Lit(0.0), Read(last)), env, m) == Some(Num(RMax(0.0, x)));
  }

  lemma GrowingMeans(env: Env, m: Metrics, x: real, y: real)
    requires Is(env, LastSample, x) && Is(env, SampleVecAvg, y)
    ensures Eval(If(Bin(Lt, Read(LastSample), Read(SampleVecAvg)),
        Bin(AvgOf, Read(LastSample), Read(SampleVecAvg)), Bin(MaxOf, Read(LastSample), Read(SampleVecAvg))), env, m)
         == Some(Num(if x < y then (x + y) / 2.0 else RMax(x, y)))
  {
    assert Eval(Bin(Lt, Read(LastSample), Read(SampleVecAvg)), env, m) == Some(Truth(x < y));
    assert Eval(Bin(AvgOf, Read(LastSample), Read(SampleVecAvg)), env, m) == Some(Num((x + y) / 2.0));
    assert Eval(Bin(MaxOf, Read(LastSample), Read(SampleVecAvg)), env, m) == Some(Num(RMax(x, y)));
  }

  /** The first half of the demand from the last sample. */
  lemma SamplesMean(env: Env, m: Metrics, pool: Pool, x: MinMax, t: TaskType) returns (e1: Env, e2: Env, e3: Env, e4: Env)
    requires HasLimits(env, x)
    ensures var p := LastSampleDemand(t, pool.lookbackSeconds, pool.requiredPercent);
      && Do(p[0], env, m) == Some(e1) && Do(p[1], e1, m) == Some(e2)
      && Do(p[2], e2, m) == Some(e3) && Do(p[3], e3, m) == Some(e4)
    ensures var sp, last, percent := m(TaskSamplePercent(t)), m(TaskLastSample(t)), pool.requiredPercent;
      && HasLimits(e4, x) && Is(e4, SamplePercent, sp) && Is(e4, LastSample, last)
      && Is(e4, SampleVecAvg, if sp < percent then RMax(0.0, last) else m(TaskAverage(t)))
  {
    var percent, sp, last := pool.requiredPercent, m(TaskSamplePercent(t)), m(TaskLastSample(t));
    LookbackMeans(env, m, pool.lookbackSeconds);
    e1 := env[Sli := Num(Product(m(TimeIntervalSecond), pool.lookbackSeconds))];
    e2 := e1[SamplePercent := Num(sp)];
    e3 := e2[LastSample := Num(last)];
    FewSamplesMeans(e3, m, SamplePercent, LastSample, percent, Sample(TaskAverage(t)), sp, last, m(TaskAverage(t)));
    e4 := e3[SampleVecAvg := Num(if sp < percent then RMax(0.0, last) else m(TaskAverage(t)))];
  }

  lemma TasksMean(env: Env, m: Metrics, t: TaskType, lookback: real, percent: real)
    requires var sp, last := m(TaskSamplePercent(t)), m(TaskLastSample(t));
      && Is(env, SamplePercent, sp) && Is(env, LastSample, last)
      && Is(env, SampleVecAvg, if sp < percent then RMax(0.0, last) else m(TaskAverage(t)))
    ensures Do(LastSampleDemand(t, lookback, percent)[4], env, m)
         == Some(env[TaskAvg := Num(LastSampleTasks(t, percent, m))])
  {
    var s := LastSampleDemand(t, lookback, percent)[4];
    var sp, last := m(TaskSamplePercent(t)), m(TaskLastSample(t));
    var average := if sp < percent then RMax(0.0, last) else m(TaskAverage(t));
    GrowingMeans(env, m, last, average);
    FewSamplesMeans(env, m, SamplePercent, LastSample, percent, s.e.no, sp, last,
      if last < average then (last + average) / 2.0 else RMax(last, average));
  }

  lemma LastSampleDemandMeans(env: Env, m: Metrics, pool: Pool, x: MinMax, t: TaskType) returns (after: Env)
    requires HasLimits(env, x) && x.maxTasksPerNode == pool.maxTasksPerNode > 0 && pool.biasLastSample
    ensures Exec(Demand(pool, t), env, m) == Some(after)
    ensures HasLimits(after, x) && Is(after, ReqVMs, DemandNumber(pool, t, m))
  {
    var p, percent := Demand(pool, t), pool.requiredPercent;
    var tasks := LastSampleTasks(t, percent, m);
    var e1, e2, e3, e4 := SamplesMean(env, m, pool, x, t);
    TasksMean(e4, m, t, pool.lookbackSeconds, percent);
    var e5 := e4[TaskAvg := Num(tasks)];
    DivisionMeans(e5, m, ReqVMs, TaskAvg, MaxTasksPerNode, tasks, x.maxTasksPerNode as real);
    after := e5[ReqVMs := Num(DemandNumber(pool, t, m))];
    ExecAlong(p, [env, e1, e2, e3, e4, e5, after], m);
  }

  lemma AverageDemandMeans(env: Env, m: Metrics, pool: Pool, x: MinMax, t: TaskType) returns (after: Env)
    requires HasLimits(env, x) && x.maxTasksPerNode == pool.maxTasksPerNode > 0 && !pool.biasLastSample
    ensures Exec(Demand(pool, t), env, m) == Some(after)
    ensures HasLimits(after, x) && Is(after, ReqVMs, DemandNumber(pool, t, m))
  {
    var p, n := Demand(pool, t), pool.maxTasksPerNode as real;
    var tasks := m(TaskAverageOver(t, pool.requiredPercent));
    LookbackMeans(env, m, pool.lookbackSeconds);
    var e1 := env[Sli := Num(Product(m(TimeIntervalSecond), pool.lookbackSeconds))];
    var e2 := e1[TaskAvg := Num(tasks)];
    DivisionMeans(e2, m, ReqVMs, TaskAvg, MaxTasksPerNode, tasks, n);
    var e3 := e2[ReqVMs := Num(tasks / n)];
    AtLeastOneMeans(e3, m, TaskAvg, ReqVMs, tasks, tasks / n);
    after := e3[ReqVMs := Num(DemandNumber(pool, t, m))];
    ExecAlong(p, [env, e1, e2, e3, after], m);
  }

  lemma DemandMeans(env: Env, m: Metrics, pool: Pool, x: MinMax, t: TaskType) returns (after: Env)
    requires HasLimits(env, x) && x.maxTasksPerNode == pool.maxTasksPerNode > 0
    ensures Exec(Demand(pool, t), env, m) == Some(after)
    ensures HasLimits(after, x) && Is(after, ReqVMs, DemandNumber(pool, t, m))
  {
    if pool.biasLastSample {
      after := LastSampleDemandMeans(env, m, pool, x, t);
    } else {
      after := AverageDemandMeans(env, m, pool, x, t);
    }
  }

  /** The environment after the demand is known. */
  predicate HasDemand(env: Env, x: MinMax, req: real) {
    HasLimits(env, x) && Is(env, ReqVMs, req)
  }

  lemma ShrinkingMeans(env: Env, m: Metrics, x: real, y: real)
    requires Is(env, LastPreemptSample, x) && Is(env, PreemptedAvg, y)
    ensures Eval(If(Bin(Gt, Read(LastPreemptSample), Read(PreemptedAvg)),
        Bin(AvgOf, Read(LastPreemptSample), Read(PreemptedAvg)), Bin(MinOf, Read(LastPreemptSample), Read(PreemptedAvg))),
        env, m)
         == Some(Num(if x > y then (x + y) / 2.0 else RMin(x, y)))
  {
    assert Eval(Bin(Gt, Read(LastPreemptSample), Read(PreemptedAvg)), env, m) == Some(Truth(x > y));
    assert Eval(Bin(AvgOf, Read(LastPreemptSample), Read(PreemptedAvg)), env, m) == Some(Num((x + y) / 2.0));
    assert Eval(Bin(MinOf, Read(LastPreemptSample), Read(PreemptedAvg)), env, m) == Some(Num(RMin(x, y)));
  }

  lemma LastSamplePreemptionMeans(env: Env, m: Metrics, pool: Pool, x: MinMax, req: real) returns (after: Env)
    requires HasDemand(env, x, req) && pool.rebalancePercent.Some? && pool.biasLastSample
    ensures Exec(LastSamplePreemption(pool.requiredPercent), env, m) == Some(after)
    ensures HasDemand(after, x, req) && Is(after, PreemptCount, PreemptedNumber(pool, m))
  {
    var p, percent := LastSamplePreemption(pool.requiredPercent), pool.requiredPercent;
    var sp, last, average := m(PreemptedSamplePercent), m(PreemptedLastSample), m(PreemptedAverage);
    var e1 := env[PreemptSamplePercent := Num(sp)];
    var e2 := e1[LastPreemptSample := Num(last)];
    var e3 := e2[PreemptedAvg := Num(average)];
    ShrinkingMeans(e3, m, last, average);
    FewSamplesMeans(e3, m, PreemptSamplePercent, LastPreemptSample, percent, p[3].e.no, sp, last,
      if last > average then (last + average) / 2.0 else RMin(last, average));
    after := e3[PreemptCount := Num(PreemptedNumber(pool, m))];
    ExecAlong(p, [env, e1, e2, e3, after], m);
  }

  lemma PreemptCountMeans(env: Env, m: Metrics, pool: Pool, x: MinMax, req: real) returns (after: Env)
    requires HasDemand(env, x, req) && pool.rebalancePercent.Some?
    ensures Exec(if pool.biasLastSample then LastSamplePreemption(pool.requiredPercent)
      else AveragePreemption(pool.requiredPercent), env, m) == Some(after)
    ensures HasDemand(after, x, req) && Is(after, PreemptCount, PreemptedNumber(pool, m))
  {
    if pool.biasLastSample {
      after := LastSamplePreemptionMeans(env, m, pool, x, req);
    } else {
      after := env[PreemptCount := Num(PreemptedNumber(pool, m))];
      ExecOne(AveragePreemption(pool.requiredPercent)[0], env, m);
    }
  }

  lemma PreemptedShareMeans(env: Env, m: Metrics, count: real, total: real)
    requires Is(env, PreemptCount, count) && Is(env, CurrentTotal, total)
    ensures Eval(If(Bin(Gt, Read(CurrentTotal), Lit(0.0)), Bin(Div, Read(PreemptCount), Read(CurrentTotal)), Lit(0.0)), env, m)
         == Some(Num(if total > 0.0 then count / total else 0.0))
  {
    assert Eval(Bin(Gt, Read(CurrentTotal), Lit(0.0)), env, m) == Some(Truth(total > 0.0));
    if total > 0.0 {
      DivisionMeans(env, m, PreemptedPercent, PreemptCount, CurrentTotal, count, total);
      assert Eval(Bin(Div, Read(PreemptCount), Read(CurrentTotal)), env, m) == Some(Num(count / total));
    }
  }

  lemma RebalanceFlagMeans(env: Env, m: Metrics, pool: Pool, x: MinMax, req: real) returns (after: Env)
    requires HasDemand(env, x, req) && pool.rebalancePercent.Some? && Is(env, PreemptCount, PreemptedNumber(pool, m))
    ensures Exec(RebalanceFlag(pool.rebalancePercent.value), env, m) == Some(after)
    ensures HasDemand(after, x, req) && Is(after, PreemptCount, PreemptedNumber(pool, m))
    ensures Holds(after, Rebalance, RebalanceTruth(pool, m))
  {
    var p := RebalanceFlag(pool.rebalancePercent.value);
    var total := m(CurrentDedicatedNodes) + m(CurrentLowPriorityNodes);
    var e1 := env[CurrentTotal := Num(total)];
    var share := if total > 0.0 then PreemptedNumber(pool, m) / total else 0.0;
    PreemptedShareMeans(e1, m, PreemptedNumber(pool, m), total);
    var e2 := e1[PreemptedPercent := Num(share)];
    assert Eval(p[2].e, e2, m) == Some(Truth(share >= pool.rebalancePercent.value));
    after := e2[Rebalance := Truth(RebalanceTruth(pool, m))];
    ExecAlong(p, [env, e1, e2, after], m);
  }

  lemma PreemptionMeans(env: Env, m: Metrics, pool: Pool, x: MinMax, req: real) returns (after: Env)
    requires HasDemand(env, x, req)
    ensures Exec(Preemption(pool), env, m) == Some(after)
    ensures HasDemand(after, x, req) && Is(after, PreemptCount, PreemptedNumber(pool, m))
    ensures Holds(after, Rebalance, RebalanceTruth(pool, m))
  {
    if pool.rebalancePercent.None? {
      var e1 := env[PreemptCount := Num(0.0)];
      after := e1[Rebalance := Truth(false)];
      ExecAlong(NoRebalance(), [env, e1, after], m);
    } else {
      var p := if pool.biasLastSample then LastSamplePreemption(pool.requiredPercent)
          else AveragePreemption(pool.requiredPercent);
      var counted := PreemptCountMeans(env, m, pool, x, req);
      after := RebalanceFlagMeans(counted, m, pool, x, req);
      ExecConcat(p, RebalanceFlag(pool.rebalancePercent.value), env, m);
    }
  }

  lemma CapacityMeans(env: Env, m: Metrics, v: Var, current: Metric, inc: Var, most: Var, a: real, b: real)
    requires Is(env, inc, a) && Is(env, most, b)
    ensures Do(Assign(v, Bin(MinOf, Bin(Add, Sample(current), Read(inc)), Read(most))), env, m)
         == Some(env[v := Num(RMin(m(current) + a, b))])
  {
    assert Eval(Sample(current), env, m) == Some(Num(m(current)));
    assert Eval(Bin(Add, Sample(current), Read(inc)), env, m) == Some(Num(m(current) + a));
    assert Eval(Read(most), env, m) == Some(Num(b));
  }

  lemma ResidualMeans(env: Env, m: Metrics, req: real, a: real, b: real)
    requires Is(env, ReqVMs, req) && Is(env, MinTargetDedicated, a) && Is(env, MinTargetLowPriority, b)
    ensures Eval(Bin(MaxOf, Lit(0.0), Bin(Sub, Bin(Sub, Read(ReqVMs), Read(MinTargetDedicated)), Read(MinTargetLowPriority))),
        env, m) == Some(Num(RMax(0.0, req - a - b)))
  {
    assert Eval(Bin(Sub, Read(ReqVMs), Read(MinTargetDedicated)), env, m) == Some(Num(req - a));
    assert Eval(Bin(Sub, Bin(Sub, Read(ReqVMs), Read(MinTargetDedicated)), Read(MinTargetLowPriority)), env, m)
        == Some(Num(req - a - b));
  }

  lemma CapacitiesSet(env: Env, m: Metrics, pool: Pool, x: MinMax, t: TaskType) returns (after: Env)
    requires pool.maxTasksPerNode > 0 && HasDemand(env, x, DemandNumber(pool, t, m))
    ensures Exec(Capacities(), env, m) == Some(after) && HasFewInputs(after, InputsOf(pool, x, t, m))
    ensures HasLimits(after, x)
    ensures PreemptCount in env ==> PreemptCount in after && after[PreemptCount] == env[PreemptCount]
    ensures Rebalance in env ==> Rebalance in after && after[Rebalance] == env[Rebalance]
  {
    var i := InputsOf(pool, x, t, m);
    CapacityMeans(env, m, MaxDedicatedVMs, CurrentDedicatedNodes, MaxIncDedicated, MaxTargetDedicated,
      x.maxIncDedicated as real, i.maxD);
    var e1 := env[MaxDedicatedVMs := Num(i.capD)];
    CapacityMeans(e1, m, MaxLowPriVMs, CurrentLowPriorityNodes, MaxIncLowPriority, MaxTargetLowPriority,
      x.maxIncLowPriority as real, i.maxL);
    var e2 := e1[MaxLowPriVMs := Num(i.capL)];
    ResidualMeans(e2, m, DemandNumber(pool, t, m), i.minD, i.minL);
    after := e2[ReqVMs := Num(i.req)];
    ExecAlong(Capacities(), [env, e1, e2, after], m);
  }

  // ---- the whole formula -----------------------------------------------------

  /** Every generated formula evaluates without an error, whatever the service
      measures: it reads only what it assigned before and never divides by zero.
      It sets the two targets to the numbers. */
  lemma FormulaMeans(pool: Pool, x: MinMax, t: TaskType, m: Metrics) returns (after: Env)
    requires Limits(pool, x) && pool.maxTasksPerNode > 0 && pool.bias != OtherBias
    ensures Exec(Formula(pool, x, t, Targets(pool.bias).value), map[], m) == Some(after)
    ensures var n := TargetNumbers(pool.bias, InputsOf(pool, x, t, m)); Reaches(after, n.0, n.1)
  {
    var h, d, p, c, q := Header(x), Demand(pool, t), Preemption(pool), Capacities(), Targets(pool.bias).value;
    var e0: Env := map[];
    var e1 := HeaderMeans(m, x);
    var e2 := DemandMeans(e1, m, pool, x, t);
    var e3 := PreemptionMeans(e2, m, pool, x, DemandNumber(pool, t, m));
    var e4 := CapacitiesSet(e3, m, pool, x, t);
    after := TargetsMean(pool.bias, e4, m, InputsOf(pool, x, t, m));
    ExecConcat(d, p, e1, m);
    ExecConcat(d + p, c, e1, m);
    ExecConcat(h, d + p + c, e0, m);
    ExecConcat(h + (d + p + c), q, e0, m);
  }
}
