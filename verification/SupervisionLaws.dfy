/** Laws of every run, whatever the interleaving and whichever store writes fail. */
module SupervisionLaws {
  import opened Wrappers
  import opened Protocol
  import opened Tasks
  import opened Supervision

  // ------------------------------------------------------------- one application

  /** Events are numbered on from n; a failed write publishes nothing but may use numbers up. */
  ghost predicate NumberedFrom(a: Applied, n: nat) {
    && (forall i :: 0 <= i < |a.events| ==> a.events[i].seqNo == n + i)
    && (if a.ok then a.n == n + |a.events| else a.events == [] && a.n >= n)
  }

  /** Only the last event can be terminal, and it carries the task as it now is. */
  ghost predicate TerminalOnlyLast(a: Applied) {
    forall i :: 0 <= i < |a.events| && a.events[i].body.Terminal? ==>
      i == |a.events| - 1 && a.events[i].body.response == ResponseOf(a.task)
  }

  ghost predicate EndsWithTerminal(a: Applied) {
    |a.events| > 0 && a.events[|a.events| - 1].body.Terminal?
  }

  ghost predicate NoTerminal(a: Applied) {
    forall i :: 0 <= i < |a.events| ==> !a.events[i].body.Terminal?
  }

  lemma TerminalShape(t: TaskState, kind: TerminalType, n: nat, o: Outside)
    ensures var a := ApplyTerminal(t, kind, n, o);
            && NumberedFrom(a, n) && TerminalOnlyLast(a)
            && a.ok == o.writeOk
            && (a.ok ==> EndsWithTerminal(a))
            && a.task.status == t.status && a.task.error == t.error && a.task.incompleteReason == t.incompleteReason
            && a.task.info == t.info
  {
  }

  lemma DeltaShape(t: TaskState, delta: string, n: nat, writeOk: bool)
    ensures var a := ApplyDelta(t, delta, n, writeOk);
            && NumberedFrom(a, n) && NoTerminal(a) && a.ok == writeOk
            && a.task == t.(output := AppendText(t.info.id, t.output, delta))
  {
  }

  /** A settled task is left exactly as it is, and nothing more is published about it. */
  lemma SettledIsLeftAlone(t: TaskState, u: RunUpdate, n: nat, o: Outside, stopped: Option<Status>, reason: string)
    requires IsTerminalStatus(t.status)
    ensures ApplyUpdate(t, u, n, o) == Applied(t, n, [], true)
    ensures SettleUnreported(t, stopped, reason, n, o) == Applied(t, n, [], true)
  {
  }

  lemma UpdateShape(t: TaskState, u: RunUpdate, n: nat, o: Outside)
    requires !IsTerminalStatus(t.status)
    ensures var a := ApplyUpdate(t, u, n, o);
            && NumberedFrom(a, n) && TerminalOnlyLast(a)
            && a.task.info == t.info
            && (EndsRun(u.kind) ==>
                  IsTerminalStatus(a.task.status) && a.ok == o.writeOk && (a.ok ==> EndsWithTerminal(a)))
            && (!EndsRun(u.kind) ==> a.task.status == t.status && NoTerminal(a)
                                     && a.task.error == t.error && a.task.incompleteReason == t.incompleteReason)
  {
    if EndsRun(u.kind) {
      TerminalShape(SettledBy(t, u), TerminalTypeOf(SettledBy(t, u).status), n, o);
    } else if u.kind.Delta? {
      DeltaShape(t, u.delta, n, o.writeOk);
    }
  }

  lemma SettleShape(t: TaskState, stopped: Option<Status>, reason: string, n: nat, o: Outside)
    requires !IsTerminalStatus(t.status)
    ensures var a := SettleUnreported(t, stopped, reason, n, o);
            && NumberedFrom(a, n) && TerminalOnlyLast(a)
            && a.task.info == t.info
            && IsTerminalStatus(a.task.status) && a.ok == o.writeOk && (a.ok ==> EndsWithTerminal(a))
  {
    var settled := SettledSilently(t, stopped, reason);
    TerminalShape(settled, TerminalTypeOf(settled.status), n, o);
  }

  // ------------------------------------------------------------------- one step

  /** What a step adds to the task, the numbering and the stream, whichever step it is. */
  ghost predicate Extends(s: RunState, s': RunState, a: Applied) {
    && NumberedFrom(a, s.n) && TerminalOnlyLast(a)
    && s'.task == a.task && s'.n == a.n && s'.published == s.published + a.events
    && s'.task.info == s.task.info
  }

  /** A step that settles the run: the adapter's terminal update, or the end of its stream. */
  predicate Decides(st: Step) {
    st.ChannelCloses? || (st.Receive? && EndsRun(st.update.kind))
  }

  predicate WriteOk(st: Step) {
    match st
    case Receive(_, o) => o.writeOk
    case ChannelCloses(o) => o.writeOk
    case _ => true
  }

  /** The change a step makes to the task and its stream. */
  ghost function Effect(cfg: RunConfig, s: RunState, st: Step): Applied {
    if s.ended then Applied(s.task, s.n, [], true)
    else
      match st
      case Receive(u, o) =>
        var c := CountStep(cfg, s, u.kind);
        ApplyUpdate(s.task, Relabel(u, c.budgetStop, c.cancelAsked), s.n, o)
      case ChannelCloses(o) =>
        SettleUnreported(s.task, StoppedBy(s.budgetStop, s.cancelAsked), ReasonOf(s.budgetStop), s.n, o)
      case _ => Applied(s.task, s.n, [], true)
  }

  lemma RelabelKeepsEnding(u: RunUpdate, b: BudgetStop, c: bool)
    ensures EndsRun(Relabel(u, b, c).kind) == EndsRun(u.kind)
    ensures !EndsRun(u.kind) ==> Relabel(u, b, c) == u
  {
  }

  lemma StepEffect(cfg: RunConfig, s: RunState, st: Step)
    ensures var s', a := Next(cfg, s, st), Effect(cfg, s, st);
            && Extends(s, s', a)
            && (IsTerminalStatus(s.task.status) ==> a.events == [] && a.task == s.task && a.n == s.n)
            && (!s.ended && !IsTerminalStatus(s.task.status) && Decides(st) ==>
                  IsTerminalStatus(s'.task.status) && a.ok == WriteOk(st) && (a.ok ==> EndsWithTerminal(a) && s'.ended))
            && (!Decides(st) ==> s'.task.status == s.task.status && NoTerminal(a) && s'.ended == s.ended
                                 && s'.task.error == s.task.error
                                 && s'.task.incompleteReason == s.task.incompleteReason)
  {
    if !s.ended {
      match st
      case Receive(u, o) =>
        var c := CountStep(cfg, s, u.kind);
        var v := Relabel(u, c.budgetStop, c.cancelAsked);
        RelabelKeepsEnding(u, c.budgetStop, c.cancelAsked);
        if IsTerminalStatus(s.task.status) {
          SettledIsLeftAlone(s.task, v, s.n, o, None, "");
        } else {
          UpdateShape(s.task, v, s.n, o);
        }
      case ChannelCloses(o) =>
        if !IsTerminalStatus(s.task.status) {
          SettleShape(s.task, StoppedBy(s.budgetStop, s.cancelAsked), ReasonOf(s.budgetStop), s.n, o);
        }
      case _ =>
    }
  }

  // ------------------------------------------------------------------- all runs

  ghost predicate Ordered(s: RunState) {
    && Increasing(s.published)
    && (forall i :: 0 <= i < |s.published| ==> s.published[i].seqNo < s.n)
    && 0 < |s.published| <= s.n
    && s.published[0].seqNo == 0 && s.published[0].body.ResponseCreated?
  }

  /** A terminal event is the last one, and reports the task as it stays. */
  ghost predicate TerminalIsLast(s: RunState) {
    forall i :: 0 <= i < |s.published| && s.published[i].body.Terminal? ==>
      i == |s.published| - 1 && s.published[i].body.response == ResponseOf(s.task) && s.ended
  }

  ghost predicate Sound(s: RunState) {
    && Ordered(s) && TerminalIsLast(s)
    && (s.ended ==> IsTerminalStatus(s.task.status))
  }

  lemma StepOrdered(cfg: RunConfig, s: RunState, st: Step)
    requires Ordered(s)
    ensures Ordered(Next(cfg, s, st))
  {
    StepEffect(cfg, s, st);
    var a := Effect(cfg, s, st);
    var p := Next(cfg, s, st).published;
    forall i, j | 0 <= i < j < |p| ensures p[i].seqNo < p[j].seqNo {
      if j >= |s.published| {
        assert p[j] == a.events[j - |s.published|];
      }
    }
  }

  lemma StepTerminalLast(cfg: RunConfig, s: RunState, st: Step)
    requires Sound(s)
    ensures TerminalIsLast(Next(cfg, s, st))
    ensures Next(cfg, s, st).ended ==> IsTerminalStatus(Next(cfg, s, st).task.status)
  {
    StepEffect(cfg, s, st);
    var a := Effect(cfg, s, st);
    var s' := Next(cfg, s, st);
    forall i | 0 <= i < |s'.published| && s'.published[i].body.Terminal?
      ensures i == |s'.published| - 1 && s'.published[i].body.response == ResponseOf(s'.task) && s'.ended
    {
      if i < |s.published| {
        assert s'.published[i] == s.published[i];
      } else {
        assert s'.published[i] == a.events[i - |s.published|];
      }
    }
  }

  lemma {:induction false} RunIsSound(cfg: RunConfig, t: TaskState, steps: seq<Step>)
    ensures Sound(Exec(cfg, t, steps))
    ensures Exec(cfg, t, steps).task.info == t.info
  {
    if |steps| > 0 {
      var p, st := Exec(cfg, t, steps[..|steps| - 1]), steps[|steps| - 1];
      RunIsSound(cfg, t, steps[..|steps| - 1]);
      StepOrdered(cfg, p, st);
      StepTerminalLast(cfg, p, st);
      StepEffect(cfg, p, st);
    }
  }

  /**
   On every run the published numbers strictly increase from the `created` event at zero, at
   most one terminal event is published, it is the last event, and it reports the status the
   task keeps.
   */
  lemma AtMostOneTerminalAndItIsLast(cfg: RunConfig, t: TaskState, steps: seq<Step>, i: nat)
    requires i < |Exec(cfg, t, steps).published| && Exec(cfg, t, steps).published[i].body.Terminal?
    ensures var s := Exec(cfg, t, steps);
            && i == |s.published| - 1
            && s.published[i].body.response == ResponseOf(s.task)
            && IsTerminalStatus(s.task.status)
            && Increasing(s.published) && s.published[0].seqNo == 0
  {
    RunIsSound(cfg, t, steps);
  }

  /** Once settled, nothing that comes later changes the task or adds to its stream. */
  lemma {:induction false} SettledForGood(cfg: RunConfig, t: TaskState, steps: seq<Step>, k: nat)
    requires k <= |steps| && IsTerminalStatus(Exec(cfg, t, steps[..k]).task.status)
    ensures Exec(cfg, t, steps).task == Exec(cfg, t, steps[..k]).task
    ensures Exec(cfg, t, steps).published == Exec(cfg, t, steps[..k]).published
    ensures Exec(cfg, t, steps).n == Exec(cfg, t, steps[..k]).n
    decreases |steps|
  {
    if k == |steps| {
      assert steps[..k] == steps;
    } else {
      var prefix := steps[..|steps| - 1];
      assert prefix[..k] == steps[..k];
      SettledForGood(cfg, t, prefix, k);
      StepEffect(cfg, Exec(cfg, t, prefix), steps[|steps| - 1]);
    }
  }

  /** The position of the step that settles the run, or the number of steps when none does. */
  function Decider(steps: seq<Step>): (k: nat)
    ensures k <= |steps|
    ensures k < |steps| ==> Decides(steps[k])
    ensures forall i :: 0 <= i < k ==> !Decides(steps[i])
  {
    if |steps| == 0 || Decides(steps[0]) then 0 else 1 + Decider(steps[1..])
  }

  /** No step settles the run. */
  ghost predicate Undecided(steps: seq<Step>) {
    forall i :: 0 <= i < |steps| ==> !Decides(steps[i])
  }

  lemma {:induction false} UndecidedIsInProgress(cfg: RunConfig, t: TaskState, steps: seq<Step>)
    requires FreshTask(t) && Undecided(steps)
    ensures var s := Exec(cfg, t, steps);
            s.task.status == InProgress && !s.ended && s.task.error.None? && s.task.incompleteReason.None?
  {
    if |steps| > 0 {
      UndecidedIsInProgress(cfg, t, steps[..|steps| - 1]);
      StepEffect(cfg, Exec(cfg, t, steps[..|steps| - 1]), steps[|steps| - 1]);
    }
  }

  lemma ExecNext(cfg: RunConfig, t: TaskState, steps: seq<Step>, k: nat)
    requires k < |steps|
    ensures Exec(cfg, t, steps[..k + 1]) == Next(cfg, Exec(cfg, t, steps[..k]), steps[k])
  {
    assert steps[..k + 1][..k] == steps[..k];
  }

  /** What the deciding step leaves of a task in progress is what the run leaves. */
  lemma DecidedForGood(cfg: RunConfig, t: TaskState, steps: seq<Step>)
    requires FreshTask(t) && Decider(steps) < |steps|
    ensures var k := Decider(steps);
            var p := Exec(cfg, t, steps[..k]);
            var s, s' := Exec(cfg, t, steps), Next(cfg, p, steps[k]);
            && Undecided(steps[..k]) && !p.ended && p.task.status == InProgress && Decides(steps[k])
            && p.task.error.None? && p.task.incompleteReason.None?
            && Extends(p, s', Effect(cfg, p, steps[k])) && IsTerminalStatus(s'.task.status)
            && s.task == s'.task && s.published == s'.published && s.n == s'.n
  {
    var k := Decider(steps);
    UndecidedIsInProgress(cfg, t, steps[..k]);
    ExecNext(cfg, t, steps, k);
    StepEffect(cfg, Exec(cfg, t, steps[..k]), steps[k]);
    SettledForGood(cfg, t, steps, k + 1);
  }

  /**
   A run is settled by the adapter's first terminal update or by the end of its stream,
   whichever comes first, and publishes exactly one terminal event when the store accepts
   that write, and none when it does not.
   */
  lemma ExactlyOneTerminalIffAccepted(cfg: RunConfig, t: TaskState, steps: seq<Step>)
    requires FreshTask(t) && Decider(steps) < |steps|
    ensures var s, k := Exec(cfg, t, steps), Decider(steps);
            && IsTerminalStatus(s.task.status)
            && s.task == Exec(cfg, t, steps[..k + 1]).task
            && |s.published| > 0
            && (WriteOk(steps[k]) <==> s.published[|s.published| - 1].body.Terminal?)
            && (forall i :: 0 <= i < |s.published| - 1 ==> !s.published[i].body.Terminal?)
  {
    var s, k := Exec(cfg, t, steps), Decider(steps);
    DecidedForGood(cfg, t, steps);
    ExecNext(cfg, t, steps, k);
    var p := Exec(cfg, t, steps[..k]);
    RunIsSound(cfg, t, steps[..k]);
    StepEffect(cfg, p, steps[k]);
    RunIsSound(cfg, t, steps);
    var a := Effect(cfg, p, steps[k]);
    assert s.published == p.published + a.events;
    assert forall i :: 0 <= i < |p.published| ==> s.published[i] == p.published[i];
  }
}
