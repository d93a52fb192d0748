/**
 What a supervised run does with everything that can happen to it: adapter updates, the wall
 clock, a cancel recorded by another thread, and a store whose writes may fail. This module
 says what each step changes; the laws over whole runs are in SupervisionLaws and
 StreamLaws, and the goroutine itself in Supervisor.
 */
module Supervision {
  import opened Wrappers
  import opened Protocol
  import opened Tasks
  import opened Budgets

  datatype UpdateKind =
    | Delta | ToolCall | ArtifactNote | UsageNote | ModelNote | SessionIdNote
    | CompletedNote | FailedNote | CancelledNote | IncompleteNote
    | UnknownNote

  /** Whether an update ends the run. */
  predicate EndsRun(k: UpdateKind) {
    k.CompletedNote? || k.FailedNote? || k.CancelledNote? || k.IncompleteNote?
  }

  datatype RunUpdate = RunUpdate(
    kind: UpdateKind,
    delta: string,
    artifact: Option<Artifact>,
    sessionId: string,
    model: string,
    usage: Option<nat>,
    err: Option<string>,
    reason: string)

  /** What the store and the working directory answer while one update is applied. */
  datatype Outside = Outside(writeOk: bool, captured: seq<Artifact>)

  /** Which budget stopped the run, if one has. */
  datatype BudgetStop = NotStopped | TimedOut | OutOfSteps

  function ReasonOf(b: BudgetStop): string {
    match b
    case NotStopped => ""
    case TimedOut => "timeout"
    case OutOfSteps => "max_step"
  }

  /** What stopped the run from outside the work: a cancel outranks a budget, and alone ranks nothing. */
  function StoppedBy(budgetStop: BudgetStop, cancelAsked: bool): Option<Status> {
    if budgetStop.NotStopped? then None
    else if cancelAsked then Some(Cancelled)
    else Some(Incomplete)
  }

  predicate RelabelableTerminal(k: UpdateKind) {
    k.CancelledNote? || k.FailedNote?
  }

  function Relabel(u: RunUpdate, budgetStop: BudgetStop, cancelAsked: bool): RunUpdate {
    match StoppedBy(budgetStop, cancelAsked)
    case None => u
    case Some(stopped) =>
      if !RelabelableTerminal(u.kind) then u
      else if stopped == Cancelled then u.(err := None, kind := CancelledNote, reason := "")
      else u.(err := None, kind := IncompleteNote, reason := ReasonOf(budgetStop))
  }

  // --------------------------------------------------- one update, on the task

  /** The task, the next number to hand out, the events to publish, and whether the write held. */
  datatype Applied = Applied(task: TaskState, n: nat, events: seq<Event>, ok: bool)

  function NumberAll(n: nat, bodies: seq<Body>): (events: seq<Event>)
    ensures |events| == |bodies|
    ensures forall i :: 0 <= i < |bodies| ==> events[i] == Numbered(n + i, bodies[i])
  {
    seq(|bodies|, i requires 0 <= i < |bodies| => Numbered(n + i, bodies[i]))
  }

  function OpeningBodies(item: OutputItem, index: nat): seq<Body> {
    [OutputItemAdded(item.(content := []), item.id, index), ContentPartAdded(item.id, index, 0)]
  }

  function DeltaBody(item: OutputItem, index: nat, delta: string): Body {
    OutputTextDelta(delta, item.id, index, 0)
  }

  function ClosingBodies(item: OutputItem, index: nat): seq<Body> {
    var part := if |item.content| > 0 then item.content[0] else ContentPart("", []);
    [OutputTextDone(part.text, item.id, index, 0), ContentPartDone(part, item.id, index, 0),
     OutputItemDone(item, item.id, index)]
  }

  function ApplyDelta(t: TaskState, delta: string, n: nat, writeOk: bool): Applied {
    var existing := MessageAt(t.output) < |t.output|;
    var t' := t.(output := AppendText(t.info.id, t.output, delta));
    var i := MessageAt(t'.output);
    var opening := if existing then [] else OpeningBodies(t'.output[i], i);
    if !writeOk then Applied(t', n + |opening|, [], false)
    else
      var bodies := opening + [DeltaBody(t'.output[i], i, delta)];
      Applied(t', n + |bodies|, NumberAll(n, bodies), true)
  }

  /** The files are captured and cited and the open item closed before the terminal write is tried. */
  function Wrapped(t: TaskState, captured: seq<Artifact>): TaskState {
    var artifacts := t.artifacts + captured;
    t.(artifacts := artifacts, output := CompleteItem(CiteOutput(t.output, artifacts)))
  }

  function TerminalBodies(wrapped: TaskState): seq<Body> {
    var i := MessageAt(wrapped.output);
    if i < |wrapped.output| then ClosingBodies(wrapped.output[i], i) else []
  }

  function ApplyTerminal(t: TaskState, kind: TerminalType, n: nat, o: Outside): Applied {
    var w := Wrapped(t, o.captured);
    var closing := TerminalBodies(w);
    if !o.writeOk then Applied(w, n + |closing|, [], false)
    else
      var bodies := closing + [Terminal(kind, ResponseOf(w))];
      Applied(w, n + |bodies|, NumberAll(n, bodies), true)
  }

  const HARNESS_ERROR: string := "harness_error"
  const FAILED_MESSAGE: string := "the harness could not complete the work"
  const SILENT_MESSAGE: string := "the harness closed its update stream without reporting a terminal state"

  /** The terminal event's name; a cancelled run ends with `response.failed`, its status saying which. */
  function TerminalTypeOf(s: Status): TerminalType {
    match s
    case Completed => ResponseCompleted
    case Incomplete => ResponseIncomplete
    case _ => ResponseFailed
  }

  /** What a terminal update says about the task, before the closing work. */
  function SettledBy(t: TaskState, u: RunUpdate): TaskState
    requires EndsRun(u.kind)
  {
    match u.kind
    case CompletedNote => t.(status := Completed)
    case CancelledNote => t.(status := Cancelled, error := None)
    case IncompleteNote =>
      t.(status := Incomplete, error := None, incompleteReason := if u.reason == "" then None else Some(u.reason))
    case FailedNote =>
      t.(status := Failed, error := Some(ErrorInfo(HARNESS_ERROR, if u.err.Some? then u.err.value else FAILED_MESSAGE)))
  }

  function ApplyUpdate(t: TaskState, u: RunUpdate, n: nat, o: Outside): Applied {
    if IsTerminalStatus(t.status) then Applied(t, n, [], true)
    else if EndsRun(u.kind) then
      var settled := SettledBy(t, u);
      ApplyTerminal(settled, TerminalTypeOf(settled.status), n, o)
    else
      match u.kind
      case Delta => ApplyDelta(t, u.delta, n, o.writeOk)
      case ArtifactNote =>
        if u.artifact.None? then Applied(t, n, [], true)
        else if !o.writeOk then Applied(t, n, [], false)
        else Applied(t.(artifacts := t.artifacts + [u.artifact.value]), n, [], true)
      case UsageNote => Applied(t.(usage := u.usage), n, [], o.writeOk)
      case ModelNote =>
        if u.model == "" || t.info.requestedModel != "" || u.model == t.model then Applied(t, n, [], true)
        else
          Applied(t.(model := u.model, metadata := SyncMetadata(t.info, u.model, t.metadata)), n, [], o.writeOk)
      case SessionIdNote => Applied(t.(nativeSessionId := u.sessionId), n, [], true)
      case _ => Applied(t, n, [], true)
  }

  /** What an adapter that closed without reporting an end leaves the task as. */
  function SettledSilently(t: TaskState, stopped: Option<Status>, reason: string): TaskState {
    if stopped == Some(Cancelled) then t.(status := Cancelled, error := None)
    else if stopped == Some(Incomplete) then t.(status := Incomplete, error := None, incompleteReason := Some(reason))
    else t.(status := Failed, error := Some(ErrorInfo(HARNESS_ERROR, SILENT_MESSAGE)))
  }

  function SettleUnreported(t: TaskState, stopped: Option<Status>, reason: string, n: nat, o: Outside): Applied {
    if IsTerminalStatus(t.status) then Applied(t, n, [], true)
    else
      var settled := SettledSilently(t, stopped, reason);
      ApplyTerminal(settled, TerminalTypeOf(settled.status), n, o)
  }

  // ------------------------------------------------------------------- one run

  datatype RunConfig = RunConfig(maxStep: Option<int>, edge: StepEdge)

  /** A run in flight; `stops` counts the times a budget asked the adapter to stop. */
  datatype RunState = RunState(
    task: TaskState,
    n: nat,
    published: seq<Event>,
    budgetStop: BudgetStop,
    steps: nat,
    armed: bool,
    cancelAsked: bool,
    stops: nat,
    ended: bool)

  datatype Step =
    | AskCancel
    | BudgetFires
    | Receive(update: RunUpdate, outside: Outside)
    | ChannelCloses(silence: Outside)

  function Begin(t: TaskState): RunState {
    RunState(t, 1, [Numbered(0, ResponseCreated(ResponseOf(t)))], NotStopped, 0, true, false, 0, false)
  }

  /** One more narrated call, and the stop it may cause. */
  function CountStep(cfg: RunConfig, s: RunState, kind: UpdateKind): RunState {
    if kind == ToolCall && cfg.maxStep.Some? && s.budgetStop.NotStopped? then
      var steps := s.steps + 1;
      if StepBudgetSpent(steps, cfg.maxStep.value, cfg.edge)
      then s.(steps := steps, budgetStop := OutOfSteps, stops := s.stops + 1)
      else s.(steps := steps)
    else s
  }

  function Publish(s: RunState, a: Applied, ends: bool): RunState {
    s.(task := a.task, n := a.n, published := s.published + a.events, ended := ends)
  }

  function OnReceive(cfg: RunConfig, s: RunState, update: RunUpdate, o: Outside): RunState {
    var c := CountStep(cfg, s, update.kind);
    var u := Relabel(update, c.budgetStop, c.cancelAsked);
    var a := ApplyUpdate(c.task, u, c.n, o);
    Publish(c, a, a.ok && EndsRun(u.kind))
  }

  function OnClose(s: RunState, o: Outside): RunState {
    Publish(s, SettleUnreported(s.task, StoppedBy(s.budgetStop, s.cancelAsked), ReasonOf(s.budgetStop), s.n, o), true)
  }

  function OnBudget(s: RunState): RunState {
    if !s.armed then s
    else s.(budgetStop := if s.budgetStop.NotStopped? then TimedOut else s.budgetStop,
            armed := false, stops := s.stops + 1)
  }

  /** A run that has ended takes no further notice of anything. */
  function Next(cfg: RunConfig, s: RunState, st: Step): RunState {
    if s.ended then s
    else
      match st
      case AskCancel => s.(cancelAsked := true)
      case BudgetFires => OnBudget(s)
      case Receive(u, o) => OnReceive(cfg, s, u, o)
      case ChannelCloses(o) => OnClose(s, o)
  }

  function Exec(cfg: RunConfig, t: TaskState, steps: seq<Step>): RunState {
    if |steps| == 0 then Begin(t)
    else Next(cfg, Exec(cfg, t, steps[..|steps| - 1]), steps[|steps| - 1])
  }

  /** A task as the supervisor is handed it. */
  predicate FreshTask(t: TaskState) {
    t.status == InProgress && t.output == [] && t.error.None? && t.incompleteReason.None?
  }
}
