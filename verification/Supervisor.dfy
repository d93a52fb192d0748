/**
 The supervising goroutine itself: the only writer of its task, its counter and its log. What
 the scheduler interleaves with it is a script of steps that ends when the adapter closes its
 channel; the methods are proved to do exactly what Supervision says.
 */
module Supervisor {
  import opened Wrappers
  import opened Protocol
  import opened Tasks
  import opened EventLogs
  import opened Feeds
  import opened Budgets
  import opened Supervision
  import opened SupervisionLaws

  class Run {
    const cfg: RunConfig
    const taskId: string
    const sessionId: string
    const log: EventLog
    const feed: Feed
    var cancelAsked: bool
    var stops: nat
    var done: bool

    constructor (cfg: RunConfig, taskId: string, sessionId: string, feed: Feed)
      requires feed.Valid()
      ensures this.cfg == cfg && this.taskId == taskId && this.sessionId == sessionId && this.feed == feed
      ensures !cancelAsked && stops == 0 && !done
      ensures log.view == Empty(0) && fresh(log) && fresh(log.buf) && InStep(feed.log.view.history)
    {
      this.cfg, this.taskId, this.sessionId, this.feed := cfg, taskId, sessionId, feed;
      cancelAsked, stops, done := false, 0, false;
      log := new EventLog(0);
      new;
      assert Copies([], |feed.log.view.history|, taskId, sessionId) == [];
    }

    /** What publishing changes. */
    ghost function Streams(): set<object>
      reads log, feed.log
    {
      {log, log.buf, feed.log, feed.log.buf, feed.numbers}
    }

    /** The log is open and whole, and the feed, which held `before`, has been given all of it. */
    ghost predicate InStep(before: seq<Event>)
      reads this, feed, Streams()
    {
      && log.Valid() && log.view.retain == 0 && !log.view.finished
      && feed.Valid() && log != feed.log && log.buf != feed.log.buf
      && feed.log.view.history == before + Copies(log.view.history, |before|, taskId, sessionId)
    }

    /** Asks the adapter to stop; what it does about it comes back on its channel. */
    method Cancel()
      modifies this`stops
      ensures stops == old(stops) + 1
    {
      stops := stops + 1;
    }

    /** Appends an event to the run's own log, and then its copy to the harness's feed. */
    method PublishOne(ev: Event, ghost before: seq<Event>)
      requires InStep(before) && ev.seqNo >= Head(log.view)
      modifies Streams()
      ensures InStep(before) && log.view.history == old(log.view.history) + [ev]
      ensures Head(log.view) == ev.seqNo + 1
      ensures fresh(Streams() - old(Streams()))
    {
      UnboundedAppend(log.view, ev);
      CopiesMore(before, log.view.history, ev, taskId, sessionId);
      log.Append(ev);
      feed.Publish(ev, taskId, sessionId);
    }

    method Publish(events: seq<Event>, ghost before: seq<Event>)
      requires InStep(before) && CanFollow(events, log.view)
      modifies Streams()
      ensures InStep(before) && log.view.history == old(log.view.history) + events
      ensures fresh(Streams() - old(Streams()))
    {
      for i := 0 to |events|
        invariant InStep(before) && log.view.history == old(log.view.history) + events[..i]
        invariant fresh(Streams() - old(Streams()))
        invariant forall j :: i <= j < |events| ==> events[j].seqNo >= Head(log.view)
      {
        assert events[..i + 1] == events[..i] + [events[i]];
        PublishOne(events[i], before);
      }
      assert events[..|events|] == events;
    }

    /** Closes the log, and then the run. */
    method Finish(ghost before: seq<Event>)
      requires InStep(before)
      modifies this`done, log
      ensures done && log.Valid() && log.view == Closed(old(log.view)) && feed.Valid()
      ensures feed.log.view == old(feed.log.view)
    {
      log.Close();
      done := true;
    }
  }

  /** In order among themselves and after everything in the log. */
  ghost predicate CanFollow(events: seq<Event>, l: Log) {
    Increasing(events) && forall i :: 0 <= i < |events| ==> events[i].seqNo >= Head(l)
  }

  lemma UnboundedAppend(l: Log, ev: Event)
    requires Window(l) && l.retain == 0 && !l.finished && ev.seqNo >= Head(l)
    ensures var l' := Appended(l, ev);
            && l'.retain == 0 && !l'.finished && l'.history == l.history + [ev] && Head(l') == ev.seqNo + 1
  {
    AppendKeepsWindow(l, ev);
  }

  method MakeEvents(bodies: seq<Body>, numbers: Sequencer) returns (events: seq<Event>)
    modifies numbers
    ensures events == NumberAll(old(numbers.n), bodies) && numbers.n == old(numbers.n) + |bodies|
  {
    events := [];
    var i := 0;
    while i < |bodies|
      invariant i <= |bodies|
      invariant numbers.n == old(numbers.n) + i
      invariant events == NumberAll(old(numbers.n), bodies)[..i]
    {
      var ev := numbers.Next(bodies[i]);
      events := events + [ev];
      i := i + 1;
    }
  }

  /** Captures, cites and closes; then one write decides whether the terminal event goes out. */
  method EndTask(task: Task, numbers: Sequencer, kind: TerminalType, o: Outside)
    returns (events: seq<Event>, ok: bool)
    modifies task, numbers
    ensures Applied(task.View(), numbers.n, events, ok) == ApplyTerminal(old(task.View()), kind, old(numbers.n), o)
  {
    ghost var w := Wrapped(task.View(), o.captured);
    task.artifacts := task.artifacts + o.captured;
    task.Cite();
    var at := task.FindMessage();
    events := [];
    if at < |task.output| {
      task.output := task.output[at := task.output[at].(status := ItemCompleted)];
      var item := task.output[at];
      MessageAtIs(task.output, at);
      events := MakeEvents(ClosingBodies(item, at), numbers);
    }
    assert task.View() == w;
    if !o.writeOk {
      return [], false;
    }
    var final := task.Snapshot();
    var last := numbers.Next(Terminal(kind, final));
    events := events + [last];
    ok := true;
    assert events == NumberAll(old(numbers.n), TerminalBodies(w) + [Terminal(kind, ResponseOf(w))]);
  }

  method ApplyFragment(task: Task, delta: string, numbers: Sequencer, writeOk: bool)
    returns (events: seq<Event>, ok: bool)
    modifies task, numbers
    ensures Applied(task.View(), numbers.n, events, ok)
            == ApplyDelta(old(task.View()), delta, old(numbers.n), writeOk)
  {
    var existing := task.FindMessage();
    var opens := existing == |task.output|;
    var at, itemId := task.Append(delta);
    events := [];
    if opens {
      events := MakeEvents(OpeningBodies(task.output[at], at), numbers);
    }
    if !writeOk {
      return [], false;
    }
    var ev := numbers.Next(OutputTextDelta(delta, itemId, at, 0));
    events := events + [ev];
    ok := true;
  }

  /** Writes a terminal update's status, error and reason onto the task. */
  method DeclareEnd(task: Task, u: RunUpdate) returns (kind: TerminalType)
    requires EndsRun(u.kind)
    modifies task`status, task`error, task`incompleteReason
    ensures task.View() == SettledBy(old(task.View()), u) && kind == TerminalTypeOf(task.status)
  {
    match u.kind {
      case CompletedNote =>
        task.status := Completed;
        return ResponseCompleted;
      case CancelledNote =>
        task.status, task.error := Cancelled, None;
        return ResponseFailed;
      case IncompleteNote =>
        task.status, task.error, task.incompleteReason := Incomplete, None, None;
        if u.reason != "" {
          task.incompleteReason := Some(u.reason);
        }
        return ResponseIncomplete;
      case FailedNote =>
        task.status := Failed;
        var message := FAILED_MESSAGE;
        if u.err.Some? {
          message := u.err.value;
        }
        task.error := Some(ErrorInfo(HARNESS_ERROR, message));
        return ResponseFailed;
    }
  }

  /** The end this server writes itself for an adapter that closed its stream without one. */
  method DeclareSilence(task: Task, stopped: Option<Status>, reason: string) returns (kind: TerminalType)
    modifies task`status, task`error, task`incompleteReason
    ensures task.View() == SettledSilently(old(task.View()), stopped, reason) && kind == TerminalTypeOf(task.status)
  {
    kind := ResponseFailed;
    if stopped == Some(Cancelled) {
      task.status, task.error := Cancelled, None;
    } else if stopped == Some(Incomplete) {
      task.status, task.error, task.incompleteReason := Incomplete, None, Some(reason);
      kind := ResponseIncomplete;
    } else {
      task.status, task.error := Failed, Some(ErrorInfo(HARNESS_ERROR, SILENT_MESSAGE));
    }
  }

  /** The updates that only note something on the task. */
  method ApplyNote(task: Task, u: RunUpdate, writeOk: bool) returns (ok: bool)
    requires !IsTerminalStatus(task.status) && !EndsRun(u.kind) && !u.kind.Delta?
    modifies task`artifacts, task`usage, task`model, task`metadata, task`nativeSessionId
    ensures forall n, o: Outside :: o.writeOk == writeOk ==>
              Applied(task.View(), n, [], ok) == ApplyUpdate(old(task.View()), u, n, o)
  {
    ok := true;
    match u.kind {
      case ArtifactNote =>
        if u.artifact.Some? {
          if !writeOk {
            return false;
          }
          task.artifacts := task.artifacts + [u.artifact.value];
        }
      case UsageNote =>
        task.usage := u.usage;
        ok := writeOk;
      case ModelNote =>
        if u.model == "" || task.info.requestedModel != "" || u.model == task.model {
          return true;
        }
        task.model := u.model;
        task.ResyncMetadata();
        ok := writeOk;
      case SessionIdNote =>
        task.nativeSessionId := u.sessionId;
      case _ =>
    }
  }

  /** Folds one adapter update into the task and makes the events to publish for it. */
  method ApplyOne(task: Task, u: RunUpdate, numbers: Sequencer, o: Outside) returns (events: seq<Event>, ok: bool)
    modifies task, numbers
    ensures Applied(task.View(), numbers.n, events, ok) == ApplyUpdate(old(task.View()), u, old(numbers.n), o)
  {
    if IsTerminalStatus(task.status) {
      return [], true;
    }
    if EndsRun(u.kind) {
      var kind := DeclareEnd(task, u);
      events, ok := EndTask(task, numbers, kind, o);
    } else if u.kind.Delta? {
      events, ok := ApplyFragment(task, u.delta, numbers, o.writeOk);
    } else {
      events := [];
      ok := ApplyNote(task, u, o.writeOk);
    }
  }

  method SettleSilence(task: Task, numbers: Sequencer, stopped: Option<Status>, reason: string, o: Outside)
    returns (events: seq<Event>, ok: bool)
    modifies task, numbers
    ensures Applied(task.View(), numbers.n, events, ok)
            == SettleUnreported(old(task.View()), stopped, reason, old(numbers.n), o)
  {
    if IsTerminalStatus(task.status) {
      return [], true;
    }
    var kind := DeclareSilence(task, stopped, reason);
    events, ok := EndTask(task, numbers, kind, o);
  }

  /** Where the goroutine stands, in Supervision's terms. */
  ghost function Standing(run: Run, task: Task, numbers: Sequencer, budgetStop: BudgetStop, steps: nat,
                          armed: bool, ended: bool): RunState
    reads run, run.log, task, numbers
  {
    RunState(task.View(), numbers.n, run.log.view.history, budgetStop, steps, armed, run.cancelAsked, run.stops, ended)
  }

  /** What ApplyUpdate makes can be appended to a log that is in step with the counter. */
  lemma NumberedCanBeAppended(a: Applied, n: nat, l: Log)
    requires NumberedFrom(a, n) && Window(l)
          && Ordered(RunState(a.task, n, l.history, NotStopped, 0, true, false, 0, false))
    ensures CanFollow(a.events, l)
  {
    HeadIsOnePastNewest(l);
  }

  lemma UpdateCanBePublished(cfg: RunConfig, s: RunState, update: RunUpdate, o: Outside, l: Log)
    requires Window(l) && l.history == s.published && Ordered(s) && !s.ended
    ensures var c := CountStep(cfg, s, update.kind);
            var a := ApplyUpdate(c.task, Relabel(update, c.budgetStop, c.cancelAsked), c.n, o);
            CanFollow(a.events, l) && (!a.ok ==> a.events == [])
  {
    StepEffect(cfg, s, Receive(update, o));
    NumberedCanBeAppended(Effect(cfg, s, Receive(update, o)), s.n, l);
  }

  lemma SettlingCanBePublished(cfg: RunConfig, s: RunState, o: Outside, l: Log)
    requires Window(l) && l.history == s.published && Ordered(s) && !s.ended
    ensures var a := SettleUnreported(s.task, StoppedBy(s.budgetStop, s.cancelAsked), ReasonOf(s.budgetStop), s.n, o);
            CanFollow(a.events, l) && (!a.ok ==> a.events == [])
  {
    StepEffect(cfg, s, ChannelCloses(o));
    NumberedCanBeAppended(Effect(cfg, s, ChannelCloses(o)), s.n, l);
  }

  lemma WindowHoldsEverything(l: Log)
    requires Window(l) && l.retain <= 0
    ensures l.events == l.history
  {
  }

  /** One narrated call, counted unless something has stopped the run already. */
  method CountCall(run: Run, kind: UpdateKind, stop: BudgetStop, counted: nat, ghost s: RunState)
    returns (budgetStop: BudgetStop, steps: nat)
    requires s.budgetStop == stop && s.steps == counted && s.stops == run.stops
    modifies run`stops
    ensures CountStep(run.cfg, s, kind) == s.(budgetStop := budgetStop, steps := steps, stops := run.stops)
  {
    budgetStop, steps := stop, counted;
    if kind == ToolCall && run.cfg.maxStep.Some? && budgetStop == NotStopped {
      steps := steps + 1;
      if StepBudgetSpent(steps, run.cfg.maxStep.value, run.cfg.edge) {
        budgetStop := OutOfSteps;
        run.Cancel();
      }
    }
  }

  /** One received update: counted, relabelled if a budget caused it, applied and published. */
  method TakeUpdate(run: Run, task: Task, numbers: Sequencer, stop: BudgetStop, counted: nat,
                    update: RunUpdate, o: Outside, ghost s: RunState, ghost before: seq<Event>)
    returns (budgetStop: BudgetStop, steps: nat, ended: bool)
    requires run.InStep(before) && numbers != run.feed.numbers
    requires s == Standing(run, task, numbers, stop, counted, s.armed, false) && Ordered(s)
    modifies run`stops, run.Streams(), task, numbers
    ensures run.InStep(before) && fresh(run.Streams() - old(run.Streams()))
    ensures Standing(run, task, numbers, budgetStop, steps, s.armed, ended) == OnReceive(run.cfg, s, update, o)
  {
    UpdateCanBePublished(run.cfg, s, update, o, run.log.view);
    budgetStop, steps := CountCall(run, update.kind, stop, counted, s);
    var u := Relabel(update, budgetStop, run.cancelAsked);
    var events, ok := ApplyOne(task, u, numbers, o);
    ended := ok && EndsRun(u.kind);
    ghost var c := s.(budgetStop := budgetStop, steps := steps, stops := run.stops);
    ghost var a := Applied(task.View(), numbers.n, events, ok);
    ReceivedIs(run.cfg, s, update, o, c, u, a);
    PublishMade(run, task, numbers, events, ok, a, c, ended, before);
  }

  lemma ReceivedIs(cfg: RunConfig, s: RunState, update: RunUpdate, o: Outside, c: RunState, u: RunUpdate, a: Applied)
    requires c == CountStep(cfg, s, update.kind) && u == Relabel(update, c.budgetStop, c.cancelAsked)
    requires a == ApplyUpdate(c.task, u, c.n, o)
    ensures OnReceive(cfg, s, update, o) == Supervision.Publish(c, a, a.ok && EndsRun(u.kind))
  {
  }

  lemma ClosedIs(s: RunState, o: Outside, a: Applied)
    requires a == SettleUnreported(s.task, StoppedBy(s.budgetStop, s.cancelAsked), ReasonOf(s.budgetStop), s.n, o)
    ensures OnClose(s, o) == Supervision.Publish(s, a, true)
  {
  }

  /** Publishes what one application made, which is nothing when its write failed. */
  method PublishMade(run: Run, task: Task, numbers: Sequencer, events: seq<Event>, ok: bool,
                     ghost a: Applied, ghost s: RunState, ghost ended: bool, ghost before: seq<Event>)
    requires a == Applied(task.View(), numbers.n, events, ok)
    requires run.InStep(before) && numbers != run.feed.numbers
    requires CanFollow(events, run.log.view) && (!ok ==> events == [])
    requires s.published == run.log.view.history && s.cancelAsked == run.cancelAsked && s.stops == run.stops
    modifies run.Streams()
    ensures run.InStep(before) && fresh(run.Streams() - old(run.Streams()))
    ensures Standing(run, task, numbers, s.budgetStop, s.steps, s.armed, ended)
            == Supervision.Publish(s, a, ended)
  {
    if ok {
      run.Publish(events, before);
    } else {
      assert run.log.view.history + events == run.log.view.history;
    }
  }

  /** The adapter's channel is closed: whatever is still open is settled here. */
  method TakeClose(run: Run, task: Task, numbers: Sequencer, budgetStop: BudgetStop, o: Outside, ghost s: RunState,
                   ghost before: seq<Event>)
    requires run.InStep(before) && numbers != run.feed.numbers
    requires s == Standing(run, task, numbers, budgetStop, s.steps, s.armed, false) && Ordered(s)
    modifies run.Streams(), task, numbers
    ensures run.InStep(before) && fresh(run.Streams() - old(run.Streams()))
    ensures Standing(run, task, numbers, budgetStop, s.steps, s.armed, true) == OnClose(s, o)
  {
    SettlingCanBePublished(run.cfg, s, o, run.log.view);
    var stopped := StoppedBy(budgetStop, run.cancelAsked);
    var events, ok := SettleSilence(task, numbers, stopped, ReasonOf(budgetStop), o);
    ghost var a := Applied(task.View(), numbers.n, events, ok);
    ClosedIs(s, o, a);
    PublishMade(run, task, numbers, events, ok, a, s, true, before);
  }

  /** One turn of the loop: a cancel asked for elsewhere, the timer, an update, or the closed channel. */
  method TakeStep(run: Run, task: Task, numbers: Sequencer, stop: BudgetStop, counted: nat, wasArmed: bool,
                  st: Step, ghost s: RunState, ghost before: seq<Event>)
    returns (budgetStop: BudgetStop, steps: nat, armed: bool, ended: bool)
    requires run.InStep(before) && numbers != run.feed.numbers
    requires s == Standing(run, task, numbers, stop, counted, wasArmed, false) && Ordered(s)
    modifies run`stops, run`cancelAsked, run.Streams(), task, numbers
    ensures run.InStep(before) && fresh(run.Streams() - old(run.Streams()))
    ensures Standing(run, task, numbers, budgetStop, steps, armed, ended) == Next(run.cfg, s, st)
  {
    budgetStop, steps, armed, ended := stop, counted, wasArmed, false;
    match st {
      case AskCancel =>
        run.cancelAsked := true;
      case BudgetFires =>
        if armed {
          if budgetStop == NotStopped {
            budgetStop := TimedOut;
          }
          armed := false;
          run.Cancel();
        }
      case Receive(update, o) =>
        budgetStop, steps, ended := TakeUpdate(run, task, numbers, stop, counted, update, o, s, before);
      case ChannelCloses(o) =>
        TakeClose(run, task, numbers, stop, o, s, before);
        ended := true;
    }
  }

  /**
   Consumes the script to its end. The log holds exactly the stream that Supervision
   prescribes, nothing evicted, and is finished; the task is left as prescribed; and the feed
   has been given the whole stream, renumbered and attributed, after whatever it held.
   */
  method Supervise(run: Run, task: Task, script: seq<Step>)
    requires run.InStep(run.feed.log.view.history) && run.log.view == Empty(0)
    requires !run.cancelAsked && run.stops == 0
    requires |script| > 0 && script[|script| - 1].ChannelCloses?
    modifies run, run.Streams(), task
    ensures run.done && run.log.Valid() && run.log.view.finished && run.feed.Valid()
    ensures run.log.view.history == run.log.view.events == Exec(run.cfg, old(task.View()), script).published
    ensures task.View() == Exec(run.cfg, old(task.View()), script).task
    ensures var before := old(run.feed.log.view.history);
            run.feed.log.view.history == before + Copies(run.log.view.history, |before|, run.taskId, run.sessionId)
  {
    ghost var before := run.feed.log.view.history;
    Stream(run, task, script, before);
    WindowHoldsEverything(run.log.view);
    run.Finish(before);
  }

  /** The opening event, and then the loop. */
  method Stream(run: Run, task: Task, script: seq<Step>, ghost before: seq<Event>)
    requires run.InStep(before) && run.log.view == Empty(0) && !run.cancelAsked && run.stops == 0
    modifies run`stops, run`cancelAsked, run.Streams(), task
    ensures run.InStep(before)
    ensures run.log.view.history == Exec(run.cfg, old(task.View()), script).published
    ensures task.View() == Exec(run.cfg, old(task.View()), script).task
  {
    ghost var t0 := task.View();
    var numbers := new Sequencer();
    Announce(run, task, numbers, before);
    Consume(run, task, numbers, script, t0, before);
  }

  method Announce(run: Run, task: Task, numbers: Sequencer, ghost before: seq<Event>)
    requires run.InStep(before) && run.log.view == Empty(0) && numbers != run.feed.numbers && numbers.n == 0
    modifies run.Streams(), numbers
    ensures run.InStep(before) && fresh(run.Streams() - old(run.Streams()))
    ensures run.log.view.history == [Numbered(0, ResponseCreated(ResponseOf(old(task.View()))))] && numbers.n == 1
  {
    var start := task.Snapshot();
    var created := numbers.Next(ResponseCreated(start));
    assert [] + [created] == [created];
    run.PublishOne(created, before);
  }

  /** The loop: one step after another until the channel is closed, everything after an end ignored. */
  method Consume(run: Run, task: Task, numbers: Sequencer, script: seq<Step>,
                 ghost t0: TaskState, ghost before: seq<Event>)
    requires run.InStep(before) && numbers != run.feed.numbers
    requires Standing(run, task, numbers, NotStopped, 0, true, false) == Begin(t0)
    modifies run`stops, run`cancelAsked, run.Streams(), task, numbers
    ensures run.InStep(before)
    ensures run.log.view.history == Exec(run.cfg, t0, script).published
    ensures task.View() == Exec(run.cfg, t0, script).task
  {
    var budgetStop, steps: nat, armed, ended := NotStopped, 0, true, false;
    ghost var s := Begin(t0);
    for i := 0 to |script|
      invariant run.InStep(before) && fresh(run.Streams() - old(run.Streams()))
      invariant s == Standing(run, task, numbers, budgetStop, steps, armed, ended)
      invariant s == Exec(run.cfg, t0, script[..i])
    {
      ExecNext(run.cfg, t0, script, i);
      ExecIsOrdered(run.cfg, t0, script[..i]);
      if !ended {
        budgetStop, steps, armed, ended :=
          TakeStep(run, task, numbers, budgetStop, steps, armed, script[i], s, before);
      }
      s := Next(run.cfg, s, script[i]);
    }
    assert script[..|script|] == script;
  }

  lemma ExecIsOrdered(cfg: RunConfig, t: TaskState, steps: seq<Step>)
    ensures Ordered(Exec(cfg, t, steps))
  {
    RunIsSound(cfg, t, steps);
  }
}
