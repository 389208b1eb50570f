/** The benchmark plan: one run task for each route, path, and warm-up or measured iteration. */
module BenchPlan {
  import opened Prelude

  datatype PathMode = GatewayOnly | DirectOnly | Both

  datatype Path = Gateway | Direct

  datatype Task = Task(sampleIndex: nat, routeName: string, path: Path, iteration: nat, isWarmup: bool)

  function BuildBenchmarkPaths(mode: PathMode): (r: seq<Path>)
    ensures |r| == 1 || (|r| == 2 && r[0] == Gateway)
    ensures forall p :: p in r <==> (p == Gateway && mode != DirectOnly) || (p == Direct && mode != GatewayOnly)
  {
    match mode
    case Both => [Gateway, Direct]
    case GatewayOnly => [Gateway]
    case DirectOnly => [Direct]
  }

  /** What a plan is made from; a negative count makes a loop that does not run. */
  datatype Plan = Plan(routeNames: seq<string>, mode: PathMode, warmup: int, iterations: int) {
    function Paths(): seq<Path> { BuildBenchmarkPaths(mode) }
    function Warmups(): nat { Max(0, warmup) }
    function BlockSize(): nat { Warmups() + Max(0, iterations) }
    function Length(): nat { Blocks(|routeNames|) * BlockSize() }
    /** The number of blocks of the first `r` routes. */
    function Blocks(r: nat): nat { r * |Paths()| }

    /** The position of run number `j` of the block of route `r` and path `p`. */
    function Position(r: nat, p: nat, j: nat): nat { (Blocks(r) + p) * BlockSize() + j }

    /** Route, path and run number of a position, by division. */
    function Decoded(k: nat): (nat, nat, nat)
      requires BlockSize() > 0
    {
      (k / BlockSize() / |Paths()|, k / BlockSize() % |Paths()|, k % BlockSize())
    }

    /** The task of that run: warm-ups come first, and both phases count from 1. */
    function TaskOf(r: nat, p: nat, j: nat): Task
      requires r < |routeNames| && p < |Paths()|
    {
      Task(Position(r, p, j), routeNames[r], Paths()[p], 1 + if j < Warmups() then j else j - Warmups(), j < Warmups())
    }
  }

  lemma {:induction false} MulGap(m: nat, n: nat, b: nat)
    ensures m < n ==> m * b + b <= n * b
    ensures m >= n ==> m * b >= n * b
    decreases n
  {
    if m < n {
      assert n * b == (n - 1) * b + b;
      if m < n - 1 {
        MulGap(m, n - 1, b);
      }
    } else {
      assert m * b == n * b + (m - n) * b && (m - n) * b >= 0;
    }
  }

  lemma QuotientBound(k: nat, m: nat, b: nat)
    requires k < m * b
    ensures b > 0 && k / b < m && k == (k / b) * b + k % b
  {
    if b > 0 {
      MulGap(k / b, m, b);
      assert k == (k / b) * b + k % b;
    }
  }

  /** Division with remainder has one solution. */
  lemma DivModUnique(b: nat, q: nat, j: nat)
    requires j < b
    ensures (q * b + j) / b == q && (q * b + j) % b == j
  {
    var k := q * b + j;
    var q', j' := k / b, k % b;
    assert k == q' * b + j' && j' < b;
    MulGap(q, q', b);
    MulGap(q', q, b);
  }

  /** Every position decodes by division to one route, path and run ... */
  lemma PositionDecodes(plan: Plan, r: nat, p: nat, j: nat)
    requires r < |plan.routeNames| && p < |plan.Paths()| && j < plan.BlockSize()
    ensures plan.Position(r, p, j) < plan.Length() && plan.Decoded(plan.Position(r, p, j)) == (r, p, j)
  {
    var b, n, q := plan.BlockSize(), |plan.Paths()|, plan.Blocks(r) + p;
    DivModUnique(b, q, j);
    DivModUnique(n, r, p);
    MulGap(r, |plan.routeNames|, n);
    MulGap(q, plan.Blocks(|plan.routeNames|), b);
  }

  /** ... and every position below the length is reached by these three. */
  lemma PositionCovers(plan: Plan, k: nat)
    requires k < plan.Length()
    ensures plan.BlockSize() > 0
    ensures var (r, p, j) := plan.Decoded(k);
      r < |plan.routeNames| && p < |plan.Paths()| && j < plan.BlockSize() && plan.Position(r, p, j) == k
  {
    var b, n := plan.BlockSize(), |plan.Paths()|;
    QuotientBound(k, plan.Blocks(|plan.routeNames|), b);
    QuotientBound(k / b, |plan.routeNames|, n);
  }

  /** The task at position `k`, by division. */
  function TaskAt(plan: Plan, k: nat): Task
    requires k < plan.Length()
  {
    PositionCovers(plan, k);
    var (r, p, j) := plan.Decoded(k);
    plan.TaskOf(r, p, j)
  }

  ghost predicate IsPrefix(tasks: seq<Task>, plan: Plan) {
    |tasks| <= plan.Length() && forall k :: 0 <= k < |tasks| ==> tasks[k] == TaskAt(plan, k)
  }

  lemma TaskAtPosition(plan: Plan, r: nat, p: nat, j: nat)
    requires r < |plan.routeNames| && p < |plan.Paths()| && j < plan.BlockSize()
    ensures plan.Position(r, p, j) < plan.Length() && TaskAt(plan, plan.Position(r, p, j)) == plan.TaskOf(r, p, j)
  {
    PositionDecodes(plan, r, p, j);
  }

  /** `buildBenchTasks`: routes x paths x (warm-ups + iterations) tasks, in order of their sample
      index, each the one its position stands for. */
  method BuildBenchTasks(plan: Plan) returns (tasks: seq<Task>)
    ensures |tasks| == |plan.routeNames| * |plan.Paths()| * (Max(0, plan.warmup) + Max(0, plan.iterations))
    ensures forall k :: 0 <= k < |tasks| ==> tasks[k] == TaskAt(plan, k) && tasks[k].sampleIndex == k
    ensures forall r, p, j :: 0 <= r < |plan.routeNames| && 0 <= p < |plan.Paths()| && 0 <= j < plan.BlockSize() ==>
      var k := plan.Position(r, p, j);
      && k < |tasks| && tasks[k].routeName == plan.routeNames[r] && tasks[k].path == plan.Paths()[p]
      && (tasks[k].isWarmup <==> j < Max(0, plan.warmup))
      && tasks[k].iteration == if tasks[k].isWarmup then j + 1 else j + 1 - Max(0, plan.warmup)
  {
    tasks := [];
    var sampleIndex := 0;
    var paths := BuildBenchmarkPaths(plan.mode);
    for r := 0 to |plan.routeNames|
      invariant |tasks| == sampleIndex == plan.Position(r, 0, 0) && IsPrefix(tasks, plan)
    {
      for p := 0 to |paths|
        invariant |tasks| == sampleIndex == plan.Position(r, p, 0) && IsPrefix(tasks, plan)
      {
        var index := 0;
        while index < plan.warmup
          invariant 0 <= index <= plan.Warmups()
          invariant |tasks| == sampleIndex == plan.Position(r, p, index) && IsPrefix(tasks, plan)
        {
          TaskAtPosition(plan, r, p, index);
          tasks := tasks + [Task(sampleIndex, plan.routeNames[r], paths[p], index + 1, true)];
          sampleIndex, index := sampleIndex + 1, index + 1;
        }
        index := 0;
        while index < plan.iterations
          invariant 0 <= index <= Max(0, plan.iterations)
          invariant |tasks| == sampleIndex == plan.Position(r, p, plan.Warmups() + index) && IsPrefix(tasks, plan)
        {
          TaskAtPosition(plan, r, p, plan.Warmups() + index);
          tasks := tasks + [Task(sampleIndex, plan.routeNames[r], paths[p], index + 1, false)];
          sampleIndex, index := sampleIndex + 1, index + 1;
        }
        NextBlock(plan, r, p);
      }
    }
    forall k | 0 <= k < |tasks| ensures tasks[k].sampleIndex == k {
      PositionCovers(plan, k);
    }
    forall r, p, j | 0 <= r < |plan.routeNames| && 0 <= p < |plan.Paths()| && 0 <= j < plan.BlockSize()
      ensures plan.Position(r, p, j) < |tasks| && tasks[plan.Position(r, p, j)] == plan.TaskOf(r, p, j)
    {
      TaskAtPosition(plan, r, p, j);
    }
  }

  lemma NextBlock(plan: Plan, r: nat, p: nat)
    requires p < |plan.Paths()|
    ensures plan.Position(r, p, plan.BlockSize()) == plan.Position(r, p + 1, 0)
    ensures plan.Position(r, |plan.Paths()|, 0) == plan.Position(r + 1, 0, 0)
  {
    var b := plan.BlockSize();
    assert (plan.Blocks(r) + p + 1) * b == (plan.Blocks(r) + p) * b + b;
  }

  /** In every block the warm-ups come before the measured runs, each phase in order from 1. */
  lemma WarmupsFirst(plan: Plan, r: nat, p: nat, i: nat, j: nat)
    requires r < |plan.routeNames| && p < |plan.Paths()| && i < j < plan.BlockSize()
    ensures plan.Position(r, p, i) < plan.Position(r, p, j) < plan.Length()
    ensures var s, t := TaskAt(plan, plan.Position(r, p, i)), TaskAt(plan, plan.Position(r, p, j));
      && s.routeName == t.routeName && s.path == t.path && (t.isWarmup ==> s.isWarmup)
      && (s.isWarmup == t.isWarmup ==> s.iteration < t.iteration)
  {
    TaskAtPosition(plan, r, p, i);
    TaskAtPosition(plan, r, p, j);
  }
}
