/**
 The two budgets a run is created with: its wall clock, in 64-bit nanoseconds, and its step
 ceiling, which may be absent.
 */
module Budgets {
  import opened Wrappers

  newtype Int64 = x: int | -0x8000_0000_0000_0000 <= x <= 0x7FFF_FFFF_FFFF_FFFF

  const SECOND: Int64 := 1_000_000_000
  const MAX_BUDGET_SECONDS: Int64 := 0x7FFF_FFFF_FFFF_FFFF / 1_000_000_000

  /** r is the least of the bounds, and absent when there is none. */
  ghost predicate IsLeast(r: Option<int>, bounds: set<int>) {
    if r.None? then bounds == {}
    else r.value in bounds && forall b :: b in bounds ==> r.value <= b
  }

  // ------------------------------------------------------------- the wall clock

  /** The bound a level sets, in nanoseconds and in unbounded arithmetic; none unless it is positive. */
  ghost function Nanoseconds(seconds: Option<Int64>): set<int> {
    if seconds.Some? && seconds.value > 0 then {seconds.value as int * SECOND as int} else {}
  }

  /** How long a run may take: no longer than any level allows. */
  method ResolveBudget(requested: Option<Int64>, configured: Option<Int64>, ceiling: Int64) returns (budget: Int64)
    ensures IsLeast(Some(budget as int), {ceiling as int} + Nanoseconds(requested) + Nanoseconds(configured))
    ensures ceiling > 0 ==> budget > 0
  {
    budget := ceiling;
    var levels := [requested, configured];
    ghost var seen: set<int> := {ceiling as int};
    var i := 0;
    while i < |levels|
      invariant 0 <= i <= |levels|
      invariant seen == {ceiling as int} + (if i > 0 then Nanoseconds(requested) else {})
                        + (if i > 1 then Nanoseconds(configured) else {})
      invariant IsLeast(Some(budget as int), seen)
      invariant budget <= ceiling
      invariant ceiling > 0 ==> budget > 0
    {
      var seconds := levels[i];
      i := i + 1;
      seen := seen + Nanoseconds(seconds);
      if seconds.None? || seconds.value <= 0 {
        continue;
      }
      if seconds.value > MAX_BUDGET_SECONDS {
        // More than an Int64 of nanoseconds, so it cannot narrow a ceiling that fits in one.
        assert seconds.value as int * SECOND as int > budget as int;
        continue;
      }
      var named := seconds.value * SECOND;
      if named < budget {
        budget := named;
      }
    }
  }

  /** Division and remainder as the source's language has them, truncated toward zero. */
  function QuotTrunc(a: Int64, b: Int64): Int64
    requires b > 0
  {
    if a >= 0 then a / b else if a % b == 0 then a / b else a / b + 1
  }

  function RemTrunc(a: Int64, b: Int64): Int64
    requires b > 0
  {
    if a >= 0 || a % b == 0 then a % b else a % b - b
  }

  /** A budget in whole seconds: the least number that covers it, never zero for a real one. */
  method BudgetSeconds(d: Int64) returns (seconds: Int64)
    ensures d > 0 ==> (seconds as int - 1) * SECOND as int < d as int <= seconds as int * SECOND as int
    ensures d > 0 ==> seconds > 0
    ensures RemTrunc(d, SECOND) == 0 ==> seconds as int * SECOND as int == d as int
  {
    seconds := QuotTrunc(d, SECOND);
    if RemTrunc(d, SECOND) != 0 {
      seconds := seconds + 1;
    }
  }

  // ----------------------------------------------------------- the step ceiling

  /** Whether a call is announced before it is made, after it, by neither, or bounded by the base. */
  datatype StepEdge = EdgeNone | EdgeStart | EdgeFinish | EdgeNative

  datatype StepRefusal = Uncountable | ZeroCannotBeHonoured

  /** Why a base cannot hold a ceiling, if it cannot. */
  function RequireStepBudget(maxStep: Option<int>, edge: StepEdge): Option<StepRefusal> {
    if maxStep.None? then None
    else if edge == EdgeNone then Some(Uncountable)
    else if maxStep.value == 0 && edge != EdgeStart then Some(ZeroCannotBeHonoured)
    else None
  }

  function EnforceableStepBudget(configured: Option<int>, edge: StepEdge): Option<int> {
    if configured.None? || RequireStepBudget(configured, edge).Some? then None else configured
  }

  function DerefOr(p: Option<int>, fallback: int): int {
    if p.None? then fallback else p.value
  }

  function NativeMaxStep(maxStep: Option<int>, edge: StepEdge): int {
    if maxStep.None? || maxStep.value <= 0 || edge != EdgeNative then 0 else maxStep.value
  }

  /** Whether a run that has narrated this many calls is stopped for it. */
  predicate StepBudgetSpent(steps: int, max: int, edge: StepEdge) {
    match edge
    case EdgeStart => steps > max
    case EdgeFinish => steps > max
    case _ => false
  }

  /** The bound a level sets on the steps: none when it is absent or negative. */
  ghost function StepBound(level: Option<int>): set<int> {
    if level.Some? && level.value >= 0 then {level.value} else {}
  }

  ghost function CeilingBound(ceiling: int): set<int> {
    if ceiling > 0 then {ceiling} else {}
  }

  method ResolveStepBudget(requested: Option<int>, configured: Option<int>, ceiling: int) returns (budget: Option<int>)
    ensures IsLeast(budget, CeilingBound(ceiling) + StepBound(requested) + StepBound(configured))
  {
    budget := None;
    if ceiling > 0 {
      budget := Some(ceiling);
    }
    ghost var seen := CeilingBound(ceiling);
    var levels := [requested, configured];
    var i := 0;
    while i < |levels|
      invariant 0 <= i <= |levels|
      invariant seen == CeilingBound(ceiling) + (if i > 0 then StepBound(requested) else {})
                        + (if i > 1 then StepBound(configured) else {})
      invariant IsLeast(budget, seen)
    {
      var steps := levels[i];
      i := i + 1;
      seen := seen + StepBound(steps);
      if steps.None? || steps.value < 0 {
        continue;
      }
      if budget.None? || steps.value < budget.value {
        budget := Some(steps.value);
      }
    }
  }

  /**
   A bound a base cannot hold: any, when no call is narrated, and zero, unless calls are
   announced before they are made.
   */
  predicate Unholdable(bound: int, edge: StepEdge) {
    edge.EdgeNone? || (bound == 0 && !edge.EdgeStart?)
  }

  /** A bound survives when its level sets one and the base can hold it. */
  ghost function Surviving(level: Option<int>, edge: StepEdge): set<int> {
    if level.Some? && level.value >= 0 && !Unholdable(level.value, edge) then {level.value} else {}
  }

  /** The deployment's own bound: zero means that none was set. */
  ghost function DeploymentBound(taskMaxStep: int, edge: StepEdge): set<int> {
    if taskMaxStep > 0 && edge != EdgeNone then {taskMaxStep} else {}
  }

  /**
   The step ceiling of one task: refused if the request names one the base cannot hold,
   otherwise the least of the bounds that survive, itself one the base can hold; and a base
   that enforces its own ceiling is handed that very number.
   */
  method StepCeiling(requested: Option<int>, configured: Option<int>, taskMaxStep: int, edge: StepEdge)
    returns (r: Result<Option<int>, StepRefusal>, native: int)
    ensures r.Failure? <==> requested.Some? && (edge.EdgeNone? || (requested.value == 0 && !edge.EdgeStart?))
    ensures r.Failure? ==> (r.error.Uncountable? <==> edge.EdgeNone?)
    ensures r.Success? ==>
              && IsLeast(r.value, StepBound(requested) + Surviving(configured, edge)
                    + DeploymentBound(taskMaxStep, edge))
              && (r.value.Some? ==> !edge.EdgeNone? && (r.value.value == 0 ==> edge.EdgeStart?))
              && native == (if edge == EdgeNative && r.value.Some? then r.value.value else 0)
              && (native == 0 <==> edge != EdgeNative || r.value.None?)
  {
    var refused := RequireStepBudget(requested, edge);
    if refused.Some? {
      return Failure(refused.value), 0;
    }
    var deployment := DerefOr(EnforceableStepBudget(Some(taskMaxStep), edge), 0);
    var maxStep := ResolveStepBudget(requested, EnforceableStepBudget(configured, edge), deployment);
    assert CeilingBound(deployment) + StepBound(requested) + StepBound(EnforceableStepBudget(configured, edge))
        == StepBound(requested) + Surviving(configured, edge) + DeploymentBound(taskMaxStep, edge);
    return Success(maxStep), NativeMaxStep(maxStep, edge);
  }
}
