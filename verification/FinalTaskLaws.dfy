/**
 What a run leaves, said of the adapter's updates and of nothing else: the event that ends the
 stream, the response in it, and every field of the final task.
 */
module FinalTaskLaws {
  import opened Wrappers
  import opened Protocol
  import opened Tasks
  import opened Budgets
  import opened Supervision
  import opened SupervisionLaws
  import opened VerdictLaws
  import opened StreamLaws

  // ------------------------------------------------- the updates, read directly

  function ArtifactsBy(st: Step): seq<Artifact> {
    if st.Receive? && st.update.kind == ArtifactNote && st.update.artifact.Some? && st.outside.writeOk
    then [st.update.artifact.value] else []
  }

  function UsageBy(st: Step, before: Option<nat>): Option<nat> {
    if st.Receive? && st.update.kind == UsageNote then st.update.usage else before
  }

  function ModelBy(info: TaskInfo, st: Step, before: string): string {
    if st.Receive? && st.update.kind == ModelNote && st.update.model != "" && info.requestedModel == ""
    then st.update.model else before
  }

  function NativeSessionBy(st: Step, before: string): string {
    if st.Receive? && st.update.kind == SessionIdNote then st.update.sessionId else before
  }

  /** The artifacts the adapter reported and the store took. */
  function ReportedArtifacts(steps: seq<Step>): seq<Artifact> {
    if |steps| == 0 then []
    else ReportedArtifacts(steps[..|steps| - 1]) + ArtifactsBy(steps[|steps| - 1])
  }

  /** The usage last reported, whether or not it could be stored. */
  function UsageAfter(steps: seq<Step>, before: Option<nat>): Option<nat> {
    if |steps| == 0 then before else UsageBy(steps[|steps| - 1], UsageAfter(steps[..|steps| - 1], before))
  }

  /** The model last named by the adapter, when the client named none; and else the one it began with. */
  function ModelAfter(info: TaskInfo, steps: seq<Step>, before: string): string {
    if |steps| == 0 then before else ModelBy(info, steps[|steps| - 1], ModelAfter(info, steps[..|steps| - 1], before))
  }

  function NativeSessionAfter(steps: seq<Step>, before: string): string {
    if |steps| == 0 then before
    else NativeSessionBy(steps[|steps| - 1], NativeSessionAfter(steps[..|steps| - 1], before))
  }

  /** The task while nothing has settled it; `client` is the metadata the client sent. */
  ghost predicate Gathered(t: TaskState, client: map<MetaKey, Meta>, steps: seq<Step>, task: TaskState) {
    && task.info == t.info
    && task.output == AssembledOutput(t.info.id, Fragments(steps))
    && task.artifacts == t.artifacts + ReportedArtifacts(steps)
    && task.usage == UsageAfter(steps, t.usage)
    && task.model == ModelAfter(t.info, steps, t.model)
    && task.nativeSessionId == NativeSessionAfter(steps, t.nativeSessionId)
    && task.metadata == SyncMetadata(t.info, task.model, client)
  }

  /** What a note changes of the task. */
  lemma QuietStep(cfg: RunConfig, s: RunState, st: Step)
    requires !s.ended && s.task.status == InProgress && !Decides(st) && !IsDelta(st)
    ensures var f := Next(cfg, s, st).task;
            && f.output == s.task.output && f.info == s.task.info
            && f.artifacts == s.task.artifacts + ArtifactsBy(st)
            && f.usage == UsageBy(st, s.task.usage)
            && f.model == ModelBy(s.task.info, st, s.task.model)
            && f.nativeSessionId == NativeSessionBy(st, s.task.nativeSessionId)
            && (f.metadata == s.task.metadata || f.metadata == SyncMetadata(s.task.info, f.model, s.task.metadata))
            && (f.model != s.task.model ==> f.metadata == SyncMetadata(s.task.info, f.model, s.task.metadata))
  {
    assert s.task.artifacts + [] == s.task.artifacts;
    if st.Receive? {
      NoteEffect(s.task, st.update, s.n, st.outside);
      RelabelKeepsEnding(st.update, CountStep(cfg, s, st.update.kind).budgetStop, s.cancelAsked);
    }
  }

  lemma NoteEffect(t: TaskState, u: RunUpdate, n: nat, o: Outside)
    requires t.status == InProgress && !EndsRun(u.kind) && !u.kind.Delta?
    ensures var f, st := ApplyUpdate(t, u, n, o).task, Receive(u, o);
            && f.output == t.output && f.info == t.info
            && f.artifacts == t.artifacts + ArtifactsBy(st)
            && f.usage == UsageBy(st, t.usage)
            && f.model == ModelBy(t.info, st, t.model)
            && f.nativeSessionId == NativeSessionBy(st, t.nativeSessionId)
            && f.metadata == if f.model == t.model then t.metadata else SyncMetadata(t.info, f.model, t.metadata)
  {
    assert t.artifacts + [] == t.artifacts;
  }

  lemma StepGathers(cfg: RunConfig, t: TaskState, client: map<MetaKey, Meta>, steps: seq<Step>, s: RunState)
    requires |steps| > 0 && !s.ended && s.task.status == InProgress && !Decides(steps[|steps| - 1])
    requires Gathered(t, client, steps[..|steps| - 1], s.task)
    ensures Gathered(t, client, steps, Next(cfg, s, steps[|steps| - 1]).task)
  {
    var prefix, st := steps[..|steps| - 1], steps[|steps| - 1];
    var f := Next(cfg, s, st).task;
    if IsDelta(st) {
      FragmentGathers(cfg, s, st, Fragments(prefix));
    } else {
      QuietStep(cfg, s, st);
      SyncForgetsEarlierModels(t.info, s.task.model, f.model, client);
    }
    AfterOneMore(t, steps);
  }

  lemma FragmentGathers(cfg: RunConfig, s: RunState, st: Step, fragments: seq<string>)
    requires !s.ended && s.task.status == InProgress && IsDelta(st)
    requires s.task.output == AssembledOutput(s.task.info.id, fragments)
    ensures Next(cfg, s, st).task == s.task.(output := AssembledOutput(s.task.info.id, fragments + [st.update.delta]))
  {
    UnsettlingEffect(cfg, s, st);
    DeltaShape(s.task, st.update.delta, s.n, WriteOk(st));
    AssembleAnother(s.task.info.id, fragments, st.update.delta);
  }

  /** Each fold over the steps, one step further. */
  lemma AfterOneMore(t: TaskState, steps: seq<Step>)
    requires |steps| > 0
    ensures var prefix, st := steps[..|steps| - 1], steps[|steps| - 1];
            && Fragments(steps) == (if IsDelta(st) then Fragments(prefix) + [st.update.delta] else Fragments(prefix))
            && t.artifacts + ReportedArtifacts(steps) == t.artifacts + ReportedArtifacts(prefix) + ArtifactsBy(st)
            && (IsDelta(st) ==> ArtifactsBy(st) == [])
            && t.artifacts + ReportedArtifacts(prefix) + [] == t.artifacts + ReportedArtifacts(prefix)
  {
    assert Fragments(steps[..|steps| - 1]) + [] == Fragments(steps[..|steps| - 1]);
  }

  lemma {:induction false} RunGathers(cfg: RunConfig, t: TaskState, client: map<MetaKey, Meta>, steps: seq<Step>)
    requires FreshTask(t) && Undecided(steps) && t.metadata == SyncMetadata(t.info, t.model, client)
    ensures Gathered(t, client, steps, Exec(cfg, t, steps).task)
  {
    if |steps| > 0 {
      var prefix := steps[..|steps| - 1];
      RunGathers(cfg, t, client, prefix);
      UndecidedIsInProgress(cfg, t, prefix);
      StepGathers(cfg, t, client, steps, Exec(cfg, t, prefix));
    } else {
      assert t.artifacts + [] == t.artifacts;
    }
  }

  // ------------------------------------------------------------------ what is left

  function Captured(st: Step): seq<Artifact> {
    match st
    case Receive(_, o) => o.captured
    case ChannelCloses(o) => o.captured
    case _ => []
  }

  /**
   The final task, whichever writes failed on the way: every fragment in its one message, closed
   and citing every artifact; the artifacts reported and captured; the usage, model and native
   session last reported; and metadata true of all that.
   */
  lemma FinalTaskHasAllThatWasReported(cfg: RunConfig, t: TaskState, client: map<MetaKey, Meta>, steps: seq<Step>)
    requires FreshTask(t) && Decider(steps) < |steps| && t.metadata == SyncMetadata(t.info, t.model, client)
    ensures var f, k := Exec(cfg, t, steps).task, Decider(steps);
            var before, fragments := steps[..k], Fragments(steps[..k]);
            && f.info == t.info
            && f.artifacts == t.artifacts + ReportedArtifacts(before) + Captured(steps[k])
            && f.output == (if fragments == [] then []
                            else [OutputItem("msg_" + t.info.id, Message, ItemCompleted,
                                             [ContentPart(Join(fragments), CiteAll([], f.artifacts))])])
            && f.usage == UsageAfter(before, t.usage)
            && f.model == ModelAfter(t.info, before, t.model)
            && f.nativeSessionId == NativeSessionAfter(before, t.nativeSessionId)
            && Truthful(t.info, f.model, client, f.metadata)
  {
    var k := Decider(steps);
    var p, st := Exec(cfg, t, steps[..k]), steps[k];
    DecidedForGood(cfg, t, steps);
    RunGathers(cfg, t, client, steps[..k]);
    SettlingKeepsFields(cfg, p, st);
    SyncIsTruthful(t.info, p.task.model, client);
    WrapAssembled(Declared(p, st), Fragments(steps[..k]), Captured(st));
  }

  /** The settling step adds the captured artifacts and closes the message, and else leaves what was gathered. */
  lemma SettlingKeepsFields(cfg: RunConfig, p: RunState, st: Step)
    requires !p.ended && p.task.status == InProgress && Decides(st)
    ensures var f := Next(cfg, p, st).task;
            && f.info == p.task.info && f.artifacts == p.task.artifacts + Captured(st)
            && f.usage == p.task.usage && f.model == p.task.model
            && f.nativeSessionId == p.task.nativeSessionId && f.metadata == p.task.metadata
            && Declared(p, st).output == p.task.output && Declared(p, st).info == p.task.info
            && f.output == Wrapped(Declared(p, st), Captured(st)).output
            && Wrapped(Declared(p, st), Captured(st)).artifacts == f.artifacts
  {
    SettlingEffect(cfg, p, st);
    DeclaredKeepsFields(p, st);
  }

  lemma DeclaredKeepsFields(p: RunState, st: Step)
    requires Decides(st)
    ensures var d := Declared(p, st);
            && d.usage == p.task.usage && d.model == p.task.model
            && d.nativeSessionId == p.task.nativeSessionId && d.metadata == p.task.metadata
  {
    if st.Receive? {
      RelabelKeepsEnding(st.update, p.budgetStop, p.cancelAsked);
    }
  }

  // ------------------------------------------------------------- the last event

  /** A response that is this task's, field by field. */
  predicate IsResponseOf(r: Response, t: TaskState) {
    && r.id == t.info.id && r.status == t.status && r.output == t.output && r.error == t.error
    && r.incompleteReason == t.incompleteReason && r.model == t.model && r.usage == t.usage && r.metadata == t.metadata
  }

  /**
   The stream begins with the task as it was handed over and, when the settling write holds,
   ends with the task as it is left: completed exactly when the adapter said so, incomplete
   exactly when the run ended so, failed otherwise.
   */
  lemma StreamBeginsAndEndsAsItShould(cfg: RunConfig, t: TaskState, steps: seq<Step>)
    requires FreshTask(t) && ValidConfig(cfg) && Decider(steps) < |steps| && WriteOk(steps[Decider(steps)])
    ensures var s, st := Exec(cfg, t, steps), steps[Decider(steps)];
            && |s.published| > 1
            && s.published[0].body.ResponseCreated? && IsResponseOf(s.published[0].body.response, t)
            && var last := s.published[|s.published| - 1].body;
               && last.Terminal? && IsResponseOf(last.response, s.task)
               && (last.kind == ResponseCompleted <==> st.Receive? && st.update.kind.CompletedNote?)
               && (last.kind == ResponseIncomplete <==> s.task.status == Incomplete)
               && (last.kind == ResponseFailed <==> s.task.status == Failed || s.task.status == Cancelled)
  {
    var k := Decider(steps);
    DecidedForGood(cfg, t, steps);
    FinalStatus(cfg, t, steps);
    BeginsWithCreated(cfg, t, steps);
    BeginsWithCreated(cfg, t, steps[..k]);
    SettlingEnds(cfg, Exec(cfg, t, steps[..k]), steps[k]);
  }

  lemma SettlingEnds(cfg: RunConfig, p: RunState, st: Step)
    requires !p.ended && p.task.status == InProgress && Decides(st) && WriteOk(st) && |p.published| > 0
    ensures var s := Next(cfg, p, st);
            && |s.published| > 1
            && var last := s.published[|s.published| - 1].body;
               && last.Terminal? && IsResponseOf(last.response, s.task)
               && last.kind == match s.task.status
                               case Completed => ResponseCompleted
                               case Incomplete => ResponseIncomplete
                               case _ => ResponseFailed
  {
    SettlingEffect(cfg, p, st);
    var d := Declared(p, st);
    TerminalIsLastOf(d, TerminalTypeOf(d.status), p.n, OutsideOf(st));
  }

  lemma TerminalIsLastOf(t: TaskState, kind: TerminalType, n: nat, o: Outside)
    requires o.writeOk
    ensures var a := ApplyTerminal(t, kind, n, o);
            && |a.events| > 0 && a.events[|a.events| - 1].body.Terminal?
            && a.events[|a.events| - 1].body.kind == kind && a.task.status == t.status
            && IsResponseOf(a.events[|a.events| - 1].body.response, a.task)
  {
  }

  lemma {:induction false} BeginsWithCreated(cfg: RunConfig, t: TaskState, steps: seq<Step>)
    ensures var s := Exec(cfg, t, steps);
            && |s.published| > 0 && s.published[0].body.ResponseCreated?
            && IsResponseOf(s.published[0].body.response, t)
  {
    if |steps| > 0 {
      BeginsWithCreated(cfg, t, steps[..|steps| - 1]);
      StepEffect(cfg, Exec(cfg, t, steps[..|steps| - 1]), steps[|steps| - 1]);
    }
  }

  /**
   Why, in the words a client reads: the budget that fired first, or the adapter's own reason;
   and for a failure the adapter's own text, or one of the two there are for its saying nothing.
   */
  lemma FinalWords(cfg: RunConfig, t: TaskState, steps: seq<Step>)
    requires FreshTask(t) && ValidConfig(cfg) && Decider(steps) < |steps|
    ensures var f, k := Exec(cfg, t, steps).task, Decider(steps);
            var st, fired := steps[k], FirstBudget(cfg, steps[..k]);
            && (f.incompleteReason.Some? ==> f.status == Incomplete)
            && (f.status == Incomplete && !(st.Receive? && st.update.kind.IncompleteNote?) ==>
                  f.incompleteReason == Some(if fired.TimedOut? then "timeout" else "max_step"))
            && (st.Receive? && st.update.kind.IncompleteNote? ==>
                  f.incompleteReason == if st.update.reason == "" then None else Some(st.update.reason))
            && (f.status == Failed ==>
                  f.error == Some(ErrorInfo("harness_error",
                    if st.ChannelCloses? then "the harness closed its update stream without reporting a terminal state"
                    else if st.update.err.Some? then st.update.err.value
                    else "the harness could not complete the work")))
            && (f.status != Failed ==> f.error.None?)
  {
    var k := Decider(steps);
    DecidedForGood(cfg, t, steps);
    FinalStatus(cfg, t, steps);
    SettlingWords(cfg, Exec(cfg, t, steps[..k]), steps[k]);
  }

  lemma SettlingWords(cfg: RunConfig, p: RunState, st: Step)
    requires !p.ended && p.task.status == InProgress && Decides(st)
    requires p.task.error.None? && p.task.incompleteReason.None?
    ensures var f := Next(cfg, p, st).task;
            && (f.incompleteReason.Some? ==> f.status == Incomplete)
            && (f.status == Failed ==>
                  f.error == Some(ErrorInfo("harness_error",
                    if st.ChannelCloses? then "the harness closed its update stream without reporting a terminal state"
                    else if st.update.err.Some? then st.update.err.value
                    else "the harness could not complete the work")))
  {
    SettlingEffect(cfg, p, st);
    var d := Declared(p, st);
    DeclaredWords(p, st);
    TerminalShape(d, TerminalTypeOf(d.status), p.n, OutsideOf(st));
  }

  lemma DeclaredWords(p: RunState, st: Step)
    requires Decides(st) && p.task.status == InProgress && p.task.error.None? && p.task.incompleteReason.None?
    ensures var d := Declared(p, st);
            && (d.incompleteReason.Some? ==> d.status == Incomplete)
            && (d.status == Failed ==>
                  d.error == Some(ErrorInfo("harness_error",
                    if st.ChannelCloses? then "the harness closed its update stream without reporting a terminal state"
                    else if st.update.err.Some? then st.update.err.value
                    else "the harness could not complete the work")))
  {
    if st.Receive? {
      RelabelKeepsEnding(st.update, p.budgetStop, p.cancelAsked);
    }
  }
}
