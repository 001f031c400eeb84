/** The autoscale formulas for task scenarios: their language, and the program
    that is generated (convoy/autoscale.py:42-221, 307-352). */
module Autoscale {
  import opened Common

  const UNBOUND_MAX_NODES: int := 16777216

  // ---- the formula language ----------------------------------------------

  datatype Var = MaxTasksPerNode | MinTargetDedicated | MinTargetLowPriority | MaxTargetDedicated | MaxTargetLowPriority
    | MaxIncDedicated | MaxIncLowPriority | Sli | SamplePercent | LastSample | SampleVecAvg | TaskAvg | ReqVMs
    | PreemptSamplePercent | LastPreemptSample | PreemptedAvg | PreemptCount | CurrentTotal | PreemptedPercent | Rebalance
    | MaxDedicatedVMs | MaxLowPriVMs | Divisor | DedicatedVMs | RemainingVMs | RedistVMs | LowPriVMs
    | TargetDedicatedNodes | TargetLowPriorityNodes

  datatype TaskType = Active | Pending

  /** What the service measures. */
  datatype Metric = TimeIntervalSecond | TaskSamplePercent(t: TaskType) | TaskLastSample(t: TaskType)
    | TaskAverage(t: TaskType) | TaskAverageOver(t: TaskType, percent: real)
    | PreemptedSamplePercent | PreemptedLastSample | PreemptedAverage | PreemptedAverageOver(percent: real)
    | CurrentDedicatedNodes | CurrentLowPriorityNodes

  datatype Op = Add | Sub | Mul | Div | MinOf | MaxOf | AvgOf | Lt | Gt | Ge | Eq | And | Or

  datatype Value = Num(n: real) | Truth(b: bool)

  datatype Expr = Lit(n: real) | Read(v: Var) | Sample(m: Metric) | Bin(op: Op, l: Expr, r: Expr)
    | If(cond: Expr, yes: Expr, no: Expr)

  datatype Stmt = Assign(v: Var, e: Expr)

  type Env = map<Var, Value>

  type Metrics = Metric -> real

  function RMin(a: real, b: real): real {
    if a <= b then a else b
  }

  function RMax(a: real, b: real): real {
    if a <= b then b else a
  }

  function Product(a: real, b: real): real {
    a * b
  }

  /** None is an evaluation error. */
  function Apply(op: Op, a: Value, b: Value): Option<Value> {
    match (a, b)
    case (Num(x), Num(y)) =>
      (match op
       case Add => Some(Num(x + y))
       case Sub => Some(Num(x - y))
       case Mul => Some(Num(Product(x, y)))
       case Div => if y == 0.0 then None else Some(Num(x / y))
       case MinOf => Some(Num(RMin(x, y)))
       case MaxOf => Some(Num(RMax(x, y)))
       case AvgOf => Some(Num((x + y) / 2.0))
       case Lt => Some(Truth(x < y))
       case Gt => Some(Truth(x > y))
       case Ge => Some(Truth(x >= y))
       case Eq => Some(Truth(x == y))
       case And => None
       case Or => None)
    case (Truth(x), Truth(y)) =>
      (match op
       case And => Some(Truth(x && y))
       case Or => Some(Truth(x || y))
       case _ => None)
    case _ => None
  }

  /** Reading a variable that was not assigned is an error. */
  function Eval(e: Expr, env: Env, m: Metrics): Option<Value>
    decreases e
  {
    match e
    case Lit(n) => Some(Num(n))
    case Read(v) => if v in env then Some(env[v]) else None
    case Sample(s) => Some(Num(m(s)))
    case Bin(op, l, r) =>
      (match (Eval(l, env, m), Eval(r, env, m))
       case (Some(a), Some(b)) => Apply(op, a, b)
       case _ => None)
    case If(c, yes, no) =>
      (match Eval(c, env, m)
       case Some(Truth(b)) => if b then Eval(yes, env, m) else Eval(no, env, m)
       case _ => None)
  }

  function Do(s: Stmt, env: Env, m: Metrics): Option<Env> {
    match Eval(s.e, env, m)
    case None => None
    case Some(x) => Some(env[s.v := x])
  }

  function Exec(p: seq<Stmt>, env: Env, m: Metrics): Option<Env> {
    if p == [] then Some(env)
    else
      match Exec(p[..|p| - 1], env, m)
      case None => None
      case Some(e) => Do(p[|p| - 1], e, m)
  }

  lemma {:induction false} ExecConcat(p: seq<Stmt>, q: seq<Stmt>, env: Env, m: Metrics)
    ensures Exec(p + q, env, m) == match Exec(p, env, m) case None => None case Some(e) => Exec(q, e, m)
  {
    if q == [] {
      assert p + q == p;
    } else {
      var n := |q| - 1;
      assert (p + q)[..|p + q| - 1] == p + q[..n];
      ExecConcat(p, q[..n], env, m);
    }
  }

  // ---- settings ----------------------------------------------------------

  datatype Counts = Counts(dedicated: int, lowPriority: int)

  datatype Bias = Auto | Dedicated | LowPriority | OtherBias

  datatype ScenarioName = ActiveTasks | PendingTasks | OtherScenario

  /** The settings that the formula depends on. */
  datatype Pool = Pool(maxTasksPerNode: int, vmCount: Counts, name: ScenarioName, maximum: Counts, maxIncrement: Counts,
                       biasLastSample: bool, bias: Bias, lookbackSeconds: real, requiredPercent: real,
                       rebalancePercent: Option<real>)

  datatype MinMax = MinMax(maxTasksPerNode: int, minDedicated: int, minLowPriority: int, maxDedicated: int,
                           maxLowPriority: int, maxIncDedicated: int, maxIncLowPriority: int)

  /** What _get_minmax makes of a pool: unlimited where the settings say so. */
  predicate Limits(pool: Pool, x: MinMax) {
    && x.maxTasksPerNode == pool.maxTasksPerNode
    && x.minDedicated == pool.vmCount.dedicated <= x.maxDedicated
    && x.minLowPriority == pool.vmCount.lowPriority <= x.maxLowPriority
    && x.maxDedicated == (if pool.maximum.dedicated < 0 then UNBOUND_MAX_NODES else pool.maximum.dedicated)
    && x.maxLowPriority == (if pool.maximum.lowPriority < 0 then UNBOUND_MAX_NODES else pool.maximum.lowPriority)
    && x.maxIncDedicated == (if pool.maxIncrement.dedicated <= 0 then UNBOUND_MAX_NODES else pool.maxIncrement.dedicated)
    && x.maxIncLowPriority == (if pool.maxIncrement.lowPriority <= 0 then UNBOUND_MAX_NODES else pool.maxIncrement.lowPriority)
  }

  /** _get_minmax; None is a ValueError. */
  method GetMinMax(pool: Pool) returns (r: Option<MinMax>)
    ensures r.Some? <==> exists x :: Limits(pool, x)
    ensures r.Some? ==> Limits(pool, r.value) && r.value.maxIncDedicated > 0 && r.value.maxIncLowPriority > 0
  {
    var minDedicated, minLowPriority := pool.vmCount.dedicated, pool.vmCount.lowPriority;
    var maxDedicated := pool.maximum.dedicated;
    if maxDedicated < 0 {
      maxDedicated := UNBOUND_MAX_NODES;
    }
    var maxLowPriority := pool.maximum.lowPriority;
    if maxLowPriority < 0 {
      maxLowPriority := UNBOUND_MAX_NODES;
    }
    if minDedicated > maxDedicated {
      return None;
    }
    if minLowPriority > maxLowPriority {
      return None;
    }
    var maxIncDedicated, maxIncLowPriority := pool.maxIncrement.dedicated, pool.maxIncrement.lowPriority;
    if maxIncDedicated <= 0 {
      maxIncDedicated := UNBOUND_MAX_NODES;
    }
    if maxIncLowPriority <= 0 {
      maxIncLowPriority := UNBOUND_MAX_NODES;
    }
    var x := MinMax(pool.maxTasksPerNode, minDedicated, minLowPriority, maxDedicated, maxLowPriority,
      maxIncDedicated, maxIncLowPriority);
    assert Limits(pool, x);
    return Some(x);
  }

  /** There are limits exactly if no minimum exceeds its maximum, which a negative
      setting puts at 16777216. */
  lemma LimitsExistIff(pool: Pool)
    ensures (exists x :: Limits(pool, x)) <==>
      && pool.vmCount.dedicated <= (if pool.maximum.dedicated < 0 then 16777216 else pool.maximum.dedicated)
      && pool.vmCount.lowPriority <= (if pool.maximum.lowPriority < 0 then 16777216 else pool.maximum.lowPriority)
  {
    var d := if pool.maximum.dedicated < 0 then 16777216 else pool.maximum.dedicated;
    var l := if pool.maximum.lowPriority < 0 then 16777216 else pool.maximum.lowPriority;
    var id := if pool.maxIncrement.dedicated <= 0 then 16777216 else pool.maxIncrement.dedicated;
    var il := if pool.maxIncrement.lowPriority <= 0 then 16777216 else pool.maxIncrement.lowPriority;
    var x := MinMax(pool.maxTasksPerNode, pool.vmCount.dedicated, pool.vmCount.lowPriority, d, l, id, il);
    if pool.vmCount.dedicated <= d && pool.vmCount.lowPriority <= l {
      assert Limits(pool, x);
    }
  }

  /** Which node counts the limits allow: the maximums bind unless they are negative,
      the increments unless they are not positive. */
  lemma LimitsAllow(pool: Pool, x: MinMax, n: int)
    requires Limits(pool, x) && n <= 16777216
    ensures n <= x.maxDedicated <==> pool.maximum.dedicated < 0 || n <= pool.maximum.dedicated
    ensures n <= x.maxLowPriority <==> pool.maximum.lowPriority < 0 || n <= pool.maximum.lowPriority
    ensures n <= x.maxIncDedicated <==> pool.maxIncrement.dedicated <= 0 || n <= pool.maxIncrement.dedicated
    ensures n <= x.maxIncLowPriority <==> pool.maxIncrement.lowPriority <= 0 || n <= pool.maxIncrement.lowPriority
    ensures x.minDedicated == pool.vmCount.dedicated && x.minLowPriority == pool.vmCount.lowPriority
  {
  }

  // ---- the generated program -----------------------------------------------

  function Header(x: MinMax): seq<Stmt> {
    [ Assign(MaxTasksPerNode, Lit(x.maxTasksPerNode as real)),
      Assign(MinTargetDedicated, Lit(x.minDedicated as real)),
      Assign(MinTargetLowPriority, Lit(x.minLowPriority as real)),
      Assign(MaxTargetDedicated, Lit(x.maxDedicated as real)),
      Assign(MaxTargetLowPriority, Lit(x.maxLowPriority as real)),
      Assign(MaxIncDedicated, Lit(x.maxIncDedicated as real)),
      Assign(MaxIncLowPriority, Lit(x.maxIncLowPriority as real)) ]
  }

  /** Demand from the last sample and the average over the lookback. */
  function LastSampleDemand(t: TaskType, lookback: real, percent: real): seq<Stmt> {
    [ Assign(Sli, Bin(Mul, Sample(TimeIntervalSecond), Lit(lookback))),
      Assign(SamplePercent, Sample(TaskSamplePercent(t))),
      Assign(LastSample, Sample(TaskLastSample(t))),
      Assign(SampleVecAvg, If(Bin(Lt, Read(SamplePercent), Lit(percent)),
        Bin(MaxOf, Lit(0.0), Read(LastSample)), Sample(TaskAverage(t)))),
      Assign(TaskAvg, If(Bin(Lt, Read(SamplePercent), Lit(percent)),
        Bin(MaxOf, Lit(0.0), Read(LastSample)),
        If(Bin(Lt, Read(LastSample), Read(SampleVecAvg)),
          Bin(AvgOf, Read(LastSample), Read(SampleVecAvg)),
          Bin(MaxOf, Read(LastSample), Read(SampleVecAvg))))),
      Assign(ReqVMs, Bin(Div, Read(TaskAvg), Read(MaxTasksPerNode))) ]
  }

  function LastSamplePreemption(percent: real): seq<Stmt> {
    [ Assign(PreemptSamplePercent, Sample(PreemptedSamplePercent)),
      Assign(LastPreemptSample, Sample(PreemptedLastSample)),
      Assign(PreemptedAvg, Sample(PreemptedAverage)),
      Assign(PreemptCount, If(Bin(Lt, Read(PreemptSamplePercent), Lit(percent)),
        Bin(MaxOf, Lit(0.0), Read(LastPreemptSample)),
        If(Bin(Gt, Read(LastPreemptSample), Read(PreemptedAvg)),
          Bin(AvgOf, Read(LastPreemptSample), Read(PreemptedAvg)),
          Bin(MinOf, Read(LastPreemptSample), Read(PreemptedAvg))))) ]
  }

  /** Demand from the average alone, at least one node if there is any task. */
  function AverageDemand(t: TaskType, lookback: real, percent: real): seq<Stmt> {
    [ Assign(Sli, Bin(Mul, Sample(TimeIntervalSecond), Lit(lookback))),
      Assign(TaskAvg, Sample(TaskAverageOver(t, percent))),
      Assign(ReqVMs, Bin(Div, Read(TaskAvg), Read(MaxTasksPerNode))),
      Assign(ReqVMs, If(Bin(And, Bin(Gt, Read(TaskAvg), Lit(0.0)), Bin(Lt, Read(ReqVMs), Lit(1.0))),
        Lit(1.0), Read(ReqVMs))) ]
  }

  function AveragePreemption(percent: real): seq<Stmt> {
    [ Assign(PreemptCount, Sample(PreemptedAverageOver(percent))) ]
  }

  function RebalanceFlag(percent: real): seq<Stmt> {
    [ Assign(CurrentTotal, Bin(Add, Sample(CurrentDedicatedNodes), Sample(CurrentLowPriorityNodes))),
      Assign(PreemptedPercent, If(Bin(Gt, Read(CurrentTotal), Lit(0.0)),
        Bin(Div, Read(PreemptCount), Read(CurrentTotal)), Lit(0.0))),
      Assign(Rebalance, Bin(Ge, Read(PreemptedPercent), Lit(percent))) ]
  }

  function NoRebalance(): seq<Stmt> {
    [ Assign(PreemptCount, Lit(0.0)),
      Assign(Rebalance, Bin(Eq, Lit(0.0), Lit(1.0))) ]
  }

  /** The capacities of this evaluation and the demand beyond the minimums. */
  function Capacities(): seq<Stmt> {
    [ Assign(MaxDedicatedVMs, Bin(MinOf, Bin(Add, Sample(CurrentDedicatedNodes), Read(MaxIncDedicated)),
        Read(MaxTargetDedicated))),
      Assign(MaxLowPriVMs, Bin(MinOf, Bin(Add, Sample(CurrentLowPriorityNodes), Read(MaxIncLowPriority)),
        Read(MaxTargetLowPriority))),
      Assign(ReqVMs, Bin(MaxOf, Lit(0.0), Bin(Sub, Bin(Sub, Read(ReqVMs), Read(MinTargetDedicated)),
        Read(MinTargetLowPriority)))) ]
  }

  /** v = max(low, min(want, cap)) */
  function Clamp(v: Var, low: Var, want: Var, cap: Var): Stmt {
    Assign(v, Bin(MaxOf, Read(low), Bin(MinOf, Read(want), Read(cap))))
  }

  function Remaining(v: Var): Stmt {
    Assign(RemainingVMs, Bin(MaxOf, Lit(0.0), Bin(Sub, Read(ReqVMs), Read(v))))
  }

  function Redistribute(v: Var, cap: Var): seq<Stmt> {
    [ Remaining(v),
      Assign(RedistVMs, If(Bin(And, Read(Rebalance), Bin(Gt, Read(RemainingVMs), Lit(0.0))),
        Bin(MinOf, Read(PreemptCount), Read(RemainingVMs)), Lit(0.0))),
      Assign(v, Bin(MinOf, Bin(Add, Read(v), Read(RedistVMs)), Read(cap))) ]
  }

  function AutoShare(): seq<Stmt> {
    [ Assign(Divisor, If(Bin(Or, Bin(Eq, Read(MaxTargetDedicated), Lit(0.0)), Bin(Eq, Read(MaxTargetLowPriority), Lit(0.0))),
        Lit(1.0), Lit(2.0))),
      Assign(DedicatedVMs, Bin(Div, Read(ReqVMs), Read(Divisor))),
      Assign(DedicatedVMs, If(Bin(And, Bin(Gt, Read(DedicatedVMs), Lit(0.0)), Bin(Lt, Read(DedicatedVMs), Lit(1.0))),
        Lit(1.0), Read(DedicatedVMs))) ]
  }

  /** The rest goes to the other kind of nodes, and both targets are set. */
  function Rest(first: Var, second: Var, low: Var, cap: Var, t1: Var, t2: Var): seq<Stmt> {
    [ Remaining(first),
      Clamp(second, low, RemainingVMs, cap),
      Assign(t1, Read(first)),
      Assign(t2, Read(second)) ]
  }

  function Targets(bias: Bias): Option<seq<Stmt>> {
    match bias
    case Auto =>
      Some(AutoShare() + [Clamp(DedicatedVMs, MinTargetDedicated, DedicatedVMs, MaxDedicatedVMs)]
        + Redistribute(DedicatedVMs, MaxDedicatedVMs)
        + Rest(DedicatedVMs, LowPriVMs, MinTargetLowPriority, MaxLowPriVMs, TargetDedicatedNodes, TargetLowPriorityNodes))
    case Dedicated =>
      Some([Clamp(DedicatedVMs, MinTargetDedicated, ReqVMs, MaxDedicatedVMs)]
        + Redistribute(DedicatedVMs, MaxDedicatedVMs)
        + Rest(DedicatedVMs, LowPriVMs, MinTargetLowPriority, MaxLowPriVMs, TargetDedicatedNodes, TargetLowPriorityNodes))
    case LowPriority =>
      Some([Clamp(LowPriVMs, MinTargetLowPriority, ReqVMs, MaxLowPriVMs)]
        + Redistribute(LowPriVMs, MaxLowPriVMs)
        + Rest(LowPriVMs, DedicatedVMs, MinTargetDedicated, MaxDedicatedVMs, TargetLowPriorityNodes, TargetDedicatedNodes))
    case OtherBias => None
  }

  function TaskTypeOf(name: ScenarioName): Option<TaskType> {
    match name
    case ActiveTasks => Some(Active)
    case PendingTasks => Some(Pending)
    case OtherScenario => None
  }

  function Demand(pool: Pool, t: TaskType): seq<Stmt> {
    if pool.biasLastSample then LastSampleDemand(t, pool.lookbackSeconds, pool.requiredPercent)
    else AverageDemand(t, pool.lookbackSeconds, pool.requiredPercent)
  }

  function Preemption(pool: Pool): seq<Stmt> {
    if pool.rebalancePercent.None? then NoRebalance()
    else
      (if pool.biasLastSample then LastSamplePreemption(pool.requiredPercent) else AveragePreemption(pool.requiredPercent))
      + RebalanceFlag(pool.rebalancePercent.value)
  }

  /** _formula_tasks, as the loop-free program its text is; None is a ValueError. */
  method FormulaTasks(pool: Pool) returns (r: Option<seq<Stmt>>)
    ensures r.Some? <==>
      (exists x :: Limits(pool, x)) && pool.name != OtherScenario && pool.bias != OtherBias
    ensures r.Some? ==> Targets(pool.bias).Some? && exists x :: Limits(pool, x) && r.value == Formula(pool, x,
      if pool.name == ActiveTasks then Active else Pending, Targets(pool.bias).value)
  {
    var minmax := GetMinMax(pool);
    if minmax.None? {
      return None;
    }
    var t := TaskTypeOf(pool.name);
    if t.None? {
      return None;
    }
    var reqVMs := Demand(pool, t.value);
    reqVMs := reqVMs + Preemption(pool);
    reqVMs := reqVMs + Capacities();
    var targetVMs := Targets(pool.bias);
    if targetVMs.None? {
      return None;
    }
    return Some(Header(minmax.value) + reqVMs + targetVMs.value);
  }

  function Formula(pool: Pool, x: MinMax, t: TaskType, targets: seq<Stmt>): seq<Stmt> {
    Header(x) + (Demand(pool, t) + Preemption(pool) + Capacities()) + targets
  }
}
