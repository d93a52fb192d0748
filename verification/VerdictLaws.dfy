/** How a run's final status follows from what happened before it was settled. */
module VerdictLaws {
  import opened Wrappers
  import opened Protocol
  import opened Tasks
  import opened Budgets
  import opened Supervision
  import opened SupervisionLaws

  // ------------------------------------------------ the history, read directly

  predicate IsToolCall(st: Step) {
    st.Receive? && st.update.kind == ToolCall
  }

  function ToolCalls(steps: seq<Step>): nat {
    if |steps| == 0 then 0
    else ToolCalls(steps[..|steps| - 1]) + if IsToolCall(steps[|steps| - 1]) then 1 else 0
  }

  /** The adapter has narrated more calls than its ceiling, on a base whose calls are counted. */
  predicate Exceeded(cfg: RunConfig, steps: seq<Step>) {
    && (cfg.edge == EdgeStart || cfg.edge == EdgeFinish)
    && cfg.maxStep.Some?
    && ToolCalls(steps) > cfg.maxStep.value
  }

  /** The wall clock fired at step i, before the step ceiling was passed. */
  predicate ClockFirst(cfg: RunConfig, steps: seq<Step>, i: nat) {
    i < |steps| && steps[i].BudgetFires? && !Exceeded(cfg, steps[..i])
  }

  /** The budget that fired first. */
  ghost function FirstBudget(cfg: RunConfig, steps: seq<Step>): BudgetStop {
    if exists i: nat :: ClockFirst(cfg, steps, i) then TimedOut
    else if Exceeded(cfg, steps) then OutOfSteps
    else NotStopped
  }

  predicate ClockFired(steps: seq<Step>) {
    exists i :: 0 <= i < |steps| && steps[i].BudgetFires?
  }

  predicate CancelAsked(steps: seq<Step>) {
    exists i :: 0 <= i < |steps| && steps[i].AskCancel?
  }

  /** Every resolved ceiling is one the budget rules can produce: absent, or not negative. */
  predicate ValidConfig(cfg: RunConfig) {
    cfg.maxStep.Some? ==> cfg.maxStep.value >= 0
  }

  // --------------------------------------------------------------- the tracking

  ghost predicate Tracks(cfg: RunConfig, steps: seq<Step>, s: RunState) {
    && s.budgetStop == FirstBudget(cfg, steps)
    && s.cancelAsked == CancelAsked(steps)
    && s.armed == !ClockFired(steps)
    && (s.budgetStop.NotStopped? && cfg.maxStep.Some? ==> s.steps == ToolCalls(steps))
    && s.stops == (if s.armed then 0 else 1) + (if s.budgetStop.OutOfSteps? then 1 else 0)
  }

  lemma FirstBudgetGrows(cfg: RunConfig, steps: seq<Step>)
    requires |steps| > 0
    ensures var prefix, st := steps[..|steps| - 1], steps[|steps| - 1];
            var before := FirstBudget(cfg, prefix);
            FirstBudget(cfg, steps) ==
              if before.TimedOut? then TimedOut
              else if st.BudgetFires? && before.NotStopped? then TimedOut
              else if Exceeded(cfg, steps) then OutOfSteps
              else NotStopped
  {
    var n := |steps| - 1;
    var prefix := steps[..n];
    forall i: nat | i < n ensures ClockFirst(cfg, steps, i) <==> ClockFirst(cfg, prefix, i) {
      assert prefix[..i] == steps[..i];
    }
    assert ClockFirst(cfg, steps, n) <==> steps[n].BudgetFires? && !Exceeded(cfg, prefix);
    if exists i: nat :: ClockFirst(cfg, prefix, i) {
      var i: nat :| ClockFirst(cfg, prefix, i);
      assert ClockFirst(cfg, steps, i);
    }
  }

  lemma FlagsGrow(steps: seq<Step>)
    requires |steps| > 0
    ensures var prefix, st := steps[..|steps| - 1], steps[|steps| - 1];
            && ClockFired(steps) == (ClockFired(prefix) || st.BudgetFires?)
            && CancelAsked(steps) == (CancelAsked(prefix) || st.AskCancel?)
  {
    var n := |steps| - 1;
    var prefix := steps[..n];
    assert forall i :: 0 <= i < n ==> prefix[i] == steps[i];
    if ClockFired(prefix) {
      var i :| 0 <= i < n && prefix[i].BudgetFires?;
      assert steps[i].BudgetFires?;
    }
    if CancelAsked(prefix) {
      var i :| 0 <= i < n && prefix[i].AskCancel?;
      assert steps[i].AskCancel?;
    }
  }

  lemma {:induction false} ToolCallsOnlyGrow(steps: seq<Step>, i: nat)
    requires i <= |steps|
    ensures ToolCalls(steps[..i]) <= ToolCalls(steps)
  {
    if i == |steps| {
      assert steps[..i] == steps;
    } else {
      assert steps[..|steps| - 1][..i] == steps[..i];
      ToolCallsOnlyGrow(steps[..|steps| - 1], i);
    }
  }

  lemma FiredMeansStopped(cfg: RunConfig, steps: seq<Step>)
    requires ClockFired(steps)
    ensures !FirstBudget(cfg, steps).NotStopped?
  {
    var i: nat :| i < |steps| && steps[i].BudgetFires?;
    ToolCallsOnlyGrow(steps, i);
    assert !Exceeded(cfg, steps) ==> ClockFirst(cfg, steps, i);
  }

  lemma StepTracks(cfg: RunConfig, steps: seq<Step>, s: RunState)
    requires ValidConfig(cfg) && |steps| > 0 && !s.ended
    requires Tracks(cfg, steps[..|steps| - 1], s)
    ensures Tracks(cfg, steps, Next(cfg, s, steps[|steps| - 1]))
  {
    FirstBudgetGrows(cfg, steps);
    FlagsGrow(steps);
    if ClockFired(steps[..|steps| - 1]) {
      FiredMeansStopped(cfg, steps[..|steps| - 1]);
    }
  }

  lemma {:induction false} RunTracks(cfg: RunConfig, t: TaskState, steps: seq<Step>)
    requires FreshTask(t) && ValidConfig(cfg)
    requires Undecided(steps)
    ensures Tracks(cfg, steps, Exec(cfg, t, steps))
  {
    if |steps| > 0 {
      RunTracks(cfg, t, steps[..|steps| - 1]);
      UndecidedIsInProgress(cfg, t, steps[..|steps| - 1]);
      StepTracks(cfg, steps, Exec(cfg, t, steps[..|steps| - 1]));
    }
  }

  /**
   While a run is unsettled the supervisor has asked the adapter to stop once if the clock has
   fired and once if the steps ran out first, and the steps run out only when more calls were
   narrated than allowed.
   */
  lemma StepStopNeedsACallTooMany(cfg: RunConfig, t: TaskState, steps: seq<Step>)
    requires FreshTask(t) && ValidConfig(cfg)
    requires Undecided(steps)
    ensures var s := Exec(cfg, t, steps);
            && (s.budgetStop.OutOfSteps? ==> Exceeded(cfg, steps))
            && (Exceeded(cfg, steps) ==> !s.budgetStop.NotStopped?)
            && (Exceeded(cfg, steps) && !ClockFired(steps) ==> s.budgetStop.OutOfSteps?)
            && s.stops == (if ClockFired(steps) then 1 else 0) + (if s.budgetStop.OutOfSteps? then 1 else 0)
  {
    RunTracks(cfg, t, steps);
    if exists i: nat :: ClockFirst(cfg, steps, i) {
      var i: nat :| ClockFirst(cfg, steps, i);
      assert steps[i].BudgetFires?;
    }
  }

  /** The very call that passes the ceiling stops the run, unless something already has. */
  lemma StoppedOnTheCallAfterTheCeiling(cfg: RunConfig, t: TaskState, steps: seq<Step>)
    requires FreshTask(t) && ValidConfig(cfg) && |steps| > 0
    requires Undecided(steps)
    requires (cfg.edge == EdgeStart || cfg.edge == EdgeFinish) && cfg.maxStep.Some?
    requires IsToolCall(steps[|steps| - 1]) && ToolCalls(steps) == cfg.maxStep.value + 1
    ensures var p, s := Exec(cfg, t, steps[..|steps| - 1]), Exec(cfg, t, steps);
            && !p.budgetStop.OutOfSteps?
            && (p.budgetStop.NotStopped? ==> s.budgetStop.OutOfSteps? && s.stops == p.stops + 1)
            && (p.budgetStop.TimedOut? ==> s.budgetStop.TimedOut? && s.stops == p.stops)
  {
    RunTracks(cfg, t, steps[..|steps| - 1]);
    RunTracks(cfg, t, steps);
    FirstBudgetGrows(cfg, steps);
    FlagsGrow(steps);
  }

  // ---------------------------------------------------------------- the verdict

  /** How the settling step reported the end. */
  predicate Reported(st: Step, kind: UpdateKind) {
    st.Receive? && st.update.kind == kind
  }

  /** The fields a settling update leaves on the task. */
  lemma EndingUpdate(t: TaskState, u: RunUpdate, n: nat, o: Outside)
    requires t.status == InProgress && EndsRun(u.kind) && t.error.None? && t.incompleteReason.None?
    ensures var f := ApplyUpdate(t, u, n, o).task;
            && (f.status == Completed <==> u.kind.CompletedNote?)
            && (f.status == Failed <==> u.kind.FailedNote?)
            && (f.status == Cancelled <==> u.kind.CancelledNote?)
            && (f.status == Incomplete <==> u.kind.IncompleteNote?)
            && (f.error.Some? <==> f.status == Failed)
            && f.incompleteReason == if u.kind.IncompleteNote? && u.reason != "" then Some(u.reason) else None
  {
    TerminalShape(SettledBy(t, u), TerminalTypeOf(SettledBy(t, u).status), n, o);
  }

  lemma EndingSilence(t: TaskState, b: BudgetStop, asked: bool, n: nat, o: Outside)
    requires t.status == InProgress && t.error.None? && t.incompleteReason.None?
    ensures var f := SettleUnreported(t, StoppedBy(b, asked), ReasonOf(b), n, o).task;
            && f.status == (if b.NotStopped? then Failed else if asked then Cancelled else Incomplete)
            && (f.error.Some? <==> f.status == Failed)
            && f.incompleteReason == if f.status == Incomplete then Some(ReasonOf(b)) else None
  {
    var settled := SettledSilently(t, StoppedBy(b, asked), ReasonOf(b));
    TerminalShape(settled, TerminalTypeOf(settled.status), n, o);
  }

  lemma SettlingStepVerdict(cfg: RunConfig, s: RunState, st: Step)
    requires !s.ended && s.task.status == InProgress && Decides(st)
    requires s.task.error.None? && s.task.incompleteReason.None?
    ensures var f := Next(cfg, s, st).task;
            var stopped := !s.budgetStop.NotStopped?;
            && (f.status == Completed <==> Reported(st, CompletedNote))
            && (f.status == Failed <==> !stopped && (st.ChannelCloses? || Reported(st, FailedNote)))
            && (f.status == Cancelled <==>
                  if stopped then s.cancelAsked && !Reported(st, CompletedNote) && !Reported(st, IncompleteNote)
                  else Reported(st, CancelledNote))
            && (f.status == Incomplete && !Reported(st, IncompleteNote) ==>
                  stopped && f.incompleteReason == Some(ReasonOf(s.budgetStop)))
            && (Reported(st, IncompleteNote) ==>
                  f.incompleteReason == if st.update.reason == "" then None else Some(st.update.reason))
            && (f.error.Some? <==> f.status == Failed)
  {
    match st
    case ChannelCloses(o) => EndingSilence(s.task, s.budgetStop, s.cancelAsked, s.n, o);
    case Receive(u, o) =>
      var v := Relabel(u, s.budgetStop, s.cancelAsked);
      RelabelKeepsEnding(u, s.budgetStop, s.cancelAsked);
      assert CountStep(cfg, s, u.kind) == s;
      EndingUpdate(s.task, v, s.n, o);
      assert Next(cfg, s, st).task == ApplyUpdate(s.task, v, s.n, o).task;
  }

  /**
   The final status is fixed by the first terminal update or close and by what had happened
   until then: completed only if the adapter said so; failed only if no budget had fired;
   incomplete with the reason of the budget that fired first, or the adapter's own; and a
   cancel asked for by then turns a budget's stop into cancelled, except where the adapter
   itself reported completed or incomplete.
   */
  lemma FinalStatus(cfg: RunConfig, t: TaskState, steps: seq<Step>)
    requires FreshTask(t) && ValidConfig(cfg) && Decider(steps) < |steps|
    ensures var k := Decider(steps);
            var f, st := Exec(cfg, t, steps).task, steps[k];
            var fired, asked := FirstBudget(cfg, steps[..k]), CancelAsked(steps[..k]);
            && (f.status == Completed <==> Reported(st, CompletedNote))
            && (f.status == Failed <==> fired.NotStopped? && (st.ChannelCloses? || Reported(st, FailedNote)))
            && (f.status == Cancelled <==>
                  if fired.NotStopped? then Reported(st, CancelledNote)
                  else asked && !Reported(st, CompletedNote) && !Reported(st, IncompleteNote))
            && (f.status == Incomplete && !Reported(st, IncompleteNote) ==>
                  !fired.NotStopped? && f.incompleteReason == Some(ReasonOf(fired)))
            && (Reported(st, IncompleteNote) ==>
                  f.incompleteReason == if st.update.reason == "" then None else Some(st.update.reason))
            && (f.error.Some? <==> f.status == Failed)
            && f.status != InProgress
  {
    var k := Decider(steps);
    var p := Exec(cfg, t, steps[..k]);
    DecidedForGood(cfg, t, steps);
    RunTracks(cfg, t, steps[..k]);
    SettlingStepVerdict(cfg, p, steps[k]);
  }
}
