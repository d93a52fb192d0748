/**
 The shape of a run's stream. When no store write fails it is fully determined: numbered
 without a gap, well bracketed, its fragments adding up to the final text. When writes fail,
 the same laws hold exactly as far as stated here.
 */
module StreamLaws {
  import opened Wrappers
  import opened Protocol
  import opened Tasks
  import opened Supervision
  import opened SupervisionLaws

  // ------------------------------------------------ the history, read directly

  predicate IsDelta(st: Step) {
    st.Receive? && st.update.kind == Delta
  }

  /** The fragments the adapter sent, written or not. */
  function Fragments(steps: seq<Step>): seq<string> {
    if |steps| == 0 then []
    else
      var st := steps[|steps| - 1];
      Fragments(steps[..|steps| - 1]) + if IsDelta(st) then [st.update.delta] else []
  }

  function Join(fragments: seq<string>): string {
    if |fragments| == 0 then "" else Join(fragments[..|fragments| - 1]) + fragments[|fragments| - 1]
  }

  ghost predicate AllWritesHold(steps: seq<Step>) {
    forall i :: 0 <= i < |steps| ==> WriteOk(steps[i])
  }

  // ---------------------------------------------------------- the stream it must be

  function AssembledItem(id: string, fragments: seq<string>, status: ItemStatus, cites: seq<string>): OutputItem {
    OutputItem(MessageId(id), Message, status, [ContentPart(Join(fragments), cites)])
  }

  function AssembledOutput(id: string, fragments: seq<string>): seq<OutputItem> {
    if |fragments| == 0 then [] else [AssembledItem(id, fragments, ItemInProgress, [])]
  }

  function DeltaStream(itemId: string, fragments: seq<string>): seq<Body> {
    if |fragments| == 0 then []
    else DeltaStream(itemId, fragments[..|fragments| - 1]) + [OutputTextDelta(fragments[|fragments| - 1], itemId, 0, 0)]
  }

  /** The item is announced, its part is opened, and then the fragments follow. */
  function OpenStream(id: string, fragments: seq<string>): seq<Body> {
    if |fragments| == 0 then []
    else
      [OutputItemAdded(OutputItem(MessageId(id), Message, ItemInProgress, []), MessageId(id), 0),
       ContentPartAdded(MessageId(id), 0, 0)]
      + DeltaStream(MessageId(id), fragments)
  }

  /** The text, the part and the item are closed, and the terminal event ends the stream. */
  function CloseStream(id: string, fragments: seq<string>, final: TaskState): seq<Body> {
    (if |fragments| == 0 then []
     else
       var cites := CiteAll([], final.artifacts);
       [OutputTextDone(Join(fragments), MessageId(id), 0, 0),
        ContentPartDone(ContentPart(Join(fragments), cites), MessageId(id), 0, 0),
        OutputItemDone(AssembledItem(id, fragments, ItemCompleted, cites), MessageId(id), 0)])
    + [Terminal(TerminalTypeOf(final.status), ResponseOf(final))]
  }

  // -------------------------------------------------------- when no write fails

  ghost predicate Open(t: TaskState, fragments: seq<string>, s: RunState) {
    && s.task.info == t.info
    && s.task.output == AssembledOutput(t.info.id, fragments)
    && Bodies(s.published) == [ResponseCreated(ResponseOf(t))] + OpenStream(t.info.id, fragments)
    && Gapless(s.published) && s.n == |s.published|
  }

  lemma BodiesOfExtension(events: seq<Event>, more: seq<Event>)
    ensures Bodies(events + more) == Bodies(events) + Bodies(more)
  {
  }

  lemma GaplessExtends(s: RunState, a: Applied)
    requires Gapless(s.published) && s.n == |s.published| && NumberedFrom(a, s.n)
    ensures Gapless(s.published + a.events)
  {
  }

  lemma AssembleAnother(id: string, fragments: seq<string>, delta: string)
    ensures AppendText(id, AssembledOutput(id, fragments), delta) == AssembledOutput(id, fragments + [delta])
  {
    var more, out := fragments + [delta], AssembledOutput(id, fragments);
    assert more[..|more| - 1] == fragments;
    if |fragments| == 0 {
      assert Join(more) == "" + delta == delta;
    } else {
      MessageAtIs(out, 0);
      assert WithText(out[0], delta).content == [ContentPart(Join(more), [])];
      assert AppendText(id, out, delta) == [WithText(out[0], delta)];
    }
  }

  lemma StreamAnother(id: string, fragments: seq<string>, delta: string)
    ensures OpenStream(id, fragments + [delta]) ==
              OpenStream(id, fragments)
              + ((if |fragments| == 0
                  then OpeningBodies(AssembledItem(id, fragments + [delta], ItemInProgress, []), 0) else [])
                 + [OutputTextDelta(delta, MessageId(id), 0, 0)])
  {
    var more := fragments + [delta];
    assert more[..|more| - 1] == fragments;
    if |fragments| == 0 {
      assert DeltaStream(MessageId(id), more) == [OutputTextDelta(delta, MessageId(id), 0, 0)];
    }
  }

  lemma DeltaKeepsOpen(t: TaskState, fragments: seq<string>, task: TaskState, n: nat, delta: string)
    requires task.info == t.info && task.output == AssembledOutput(t.info.id, fragments)
    ensures var a := ApplyDelta(task, delta, n, true);
            && a.task.output == AssembledOutput(t.info.id, fragments + [delta])
            && OpenStream(t.info.id, fragments + [delta]) == OpenStream(t.info.id, fragments) + Bodies(a.events)
  {
    AssembleAnother(t.info.id, fragments, delta);
    StreamAnother(t.info.id, fragments, delta);
    var a := ApplyDelta(task, delta, n, true);
    MessageAtIs(a.task.output, 0);
    if |fragments| > 0 {
      MessageAtIs(task.output, 0);
    }
  }

  /** What a step that does not settle the run does to it. */
  lemma UnsettlingEffect(cfg: RunConfig, s: RunState, st: Step)
    requires !s.ended && s.task.status == InProgress && !Decides(st)
    ensures Next(cfg, s, st).published == s.published + Effect(cfg, s, st).events
    ensures Next(cfg, s, st).task == Effect(cfg, s, st).task && Next(cfg, s, st).n == Effect(cfg, s, st).n
    ensures Next(cfg, s, st).task.info == s.task.info && NumberedFrom(Effect(cfg, s, st), s.n)
    ensures IsDelta(st) ==> Effect(cfg, s, st) == ApplyDelta(s.task, st.update.delta, s.n, WriteOk(st))
    ensures !IsDelta(st) ==> Effect(cfg, s, st).events == [] && Effect(cfg, s, st).n == s.n
                             && Effect(cfg, s, st).task.output == s.task.output
  {
    StepEffect(cfg, s, st);
    if st.Receive? {
      RelabelKeepsEnding(st.update, CountStep(cfg, s, st.update.kind).budgetStop, s.cancelAsked);
    }
  }

  function MoreFragments(st: Step): seq<string> {
    if IsDelta(st) then [st.update.delta] else []
  }

  lemma StepKeepsOpen(cfg: RunConfig, t: TaskState, fragments: seq<string>, s: RunState, st: Step)
    requires Open(t, fragments, s) && !s.ended && s.task.status == InProgress
    requires !Decides(st) && WriteOk(st)
    ensures Open(t, fragments + MoreFragments(st), Next(cfg, s, st))
  {
    UnsettlingEffect(cfg, s, st);
    var a := Effect(cfg, s, st);
    if IsDelta(st) {
      DeltaShape(s.task, st.update.delta, s.n, true);
      DeltaKeepsOpen(t, fragments, s.task, s.n, st.update.delta);
      OpenExtends(t, fragments, fragments + [st.update.delta], s, a, Next(cfg, s, st));
    } else {
      assert s.published + [] == s.published && fragments + [] == fragments;
    }
  }

  lemma OpenExtends(t: TaskState, fragments: seq<string>, more: seq<string>, s: RunState, a: Applied, s': RunState)
    requires Open(t, fragments, s) && NumberedFrom(a, s.n)
    requires s'.published == s.published + a.events && s'.task == a.task && s'.n == a.n == s.n + |a.events|
    requires a.task.info == t.info && a.task.output == AssembledOutput(t.info.id, more)
    requires OpenStream(t.info.id, more) == OpenStream(t.info.id, fragments) + Bodies(a.events)
    ensures Open(t, more, s')
  {
    BodiesOfExtension(s.published, a.events);
    GaplessExtends(s, a);
    var created := [ResponseCreated(ResponseOf(t))];
    assert created + OpenStream(t.info.id, fragments) + Bodies(a.events) == created + OpenStream(t.info.id, more);
  }

  lemma {:induction false} RunStaysOpen(cfg: RunConfig, t: TaskState, steps: seq<Step>)
    requires FreshTask(t) && Undecided(steps) && AllWritesHold(steps)
    ensures Open(t, Fragments(steps), Exec(cfg, t, steps))
  {
    if |steps| > 0 {
      var prefix := steps[..|steps| - 1];
      RunStaysOpen(cfg, t, prefix);
      UndecidedIsInProgress(cfg, t, prefix);
      StepKeepsOpen(cfg, t, Fragments(prefix), Exec(cfg, t, prefix), steps[|steps| - 1]);
    }
  }

  lemma WrapAssembled(t: TaskState, fragments: seq<string>, captured: seq<Artifact>)
    requires t.output == AssembledOutput(t.info.id, fragments)
    ensures var w := Wrapped(t, captured);
            w.output == if |fragments| == 0 then []
                        else [AssembledItem(t.info.id, fragments, ItemCompleted, CiteAll([], w.artifacts))]
  {
    var w := Wrapped(t, captured);
    if |fragments| > 0 {
      MessageAtIs(t.output, 0);
      var c := CiteOutput(t.output, w.artifacts);
      assert |c| == 1 && c[0].content == [ContentPart(Join(fragments), CiteAll([], w.artifacts))];
      MessageAtIs(c, 0);
      assert w.output == c[0 := c[0].(status := ItemCompleted)];
    }
  }

  lemma WrappedCloses(t: TaskState, fragments: seq<string>, captured: seq<Artifact>)
    requires t.output == AssembledOutput(t.info.id, fragments)
    ensures var w := Wrapped(t, captured);
            TerminalBodies(w) + [Terminal(TerminalTypeOf(w.status), ResponseOf(w))]
            == CloseStream(t.info.id, fragments, w)
  {
    WrapAssembled(t, fragments, captured);
    var w := Wrapped(t, captured);
    if |fragments| > 0 {
      MessageAtIs(w.output, 0);
    }
  }

  /** The task as the settling step declares it, before the closing work. */
  function Declared(s: RunState, st: Step): TaskState
    requires Decides(st)
  {
    match st
    case Receive(u, _) =>
      var v := Relabel(u, s.budgetStop, s.cancelAsked);
      RelabelKeepsEnding(u, s.budgetStop, s.cancelAsked);
      SettledBy(s.task, v)
    case ChannelCloses(_) => SettledSilently(s.task, StoppedBy(s.budgetStop, s.cancelAsked), ReasonOf(s.budgetStop))
  }

  function OutsideOf(st: Step): Outside
    requires Decides(st)
  {
    match st case Receive(_, o) => o case ChannelCloses(o) => o
  }

  lemma SettlingEffect(cfg: RunConfig, s: RunState, st: Step)
    requires !s.ended && s.task.status == InProgress && Decides(st)
    ensures var d := Declared(s, st);
            var a := ApplyTerminal(d, TerminalTypeOf(d.status), s.n, OutsideOf(st));
            && Next(cfg, s, st).published == s.published + a.events
            && Next(cfg, s, st).task == a.task && Next(cfg, s, st).n == a.n
            && d.output == s.task.output && d.info == s.task.info && d.artifacts == s.task.artifacts
  {
    if st.Receive? {
      RelabelKeepsEnding(st.update, s.budgetStop, s.cancelAsked);
      assert CountStep(cfg, s, st.update.kind) == s;
    }
  }

  /** The settling step closes everything that was open. */
  lemma SettlingStepCloses(cfg: RunConfig, t: TaskState, fragments: seq<string>, s: RunState, st: Step)
    requires Open(t, fragments, s) && !s.ended && s.task.status == InProgress
    requires Decides(st) && WriteOk(st)
    ensures var s' := Next(cfg, s, st);
            && Bodies(s'.published) == Bodies(s.published) + CloseStream(t.info.id, fragments, s'.task)
            && Gapless(s'.published)
            && s'.task.output == (if |fragments| == 0 then []
                                  else
                                    [AssembledItem(t.info.id, fragments, ItemCompleted,
                                                   CiteAll([], s'.task.artifacts))])
  {
    SettlingEffect(cfg, s, st);
    var d, o := Declared(s, st), OutsideOf(st);
    var a := ApplyTerminal(d, TerminalTypeOf(d.status), s.n, o);
    TerminalShape(d, TerminalTypeOf(d.status), s.n, o);
    GaplessExtends(s, a);
    BodiesOfExtension(s.published, a.events);
    WrapAssembled(d, fragments, o.captured);
    WrappedCloses(d, fragments, o.captured);
    assert Bodies(a.events) == CloseStream(t.info.id, fragments, a.task);
  }

  lemma AssembledText(id: string, fragments: seq<string>, status: ItemStatus, cites: seq<string>)
    ensures OutputText([AssembledItem(id, fragments, status, cites)]) == Join(fragments)
  {
    var item := AssembledItem(id, fragments, status, cites);
    assert PartsText(item.content) == Join(fragments) + PartsText(item.content[1..]);
    assert OutputText([item]) == PartsText(item.content) + OutputText([item][1..]);
  }

  /**
   The whole stream of a run none of whose writes failed: `created`, the item and part opened
   before the first fragment, every fragment, the text, part and item closed, and one terminal
   event carrying the final response. It is numbered 0, 1, 2, ... and its fragments add up to
   the closing text and to the text of the final response.
   */
  lemma StreamIsWellBracketed(cfg: RunConfig, t: TaskState, steps: seq<Step>)
    requires FreshTask(t) && Decider(steps) < |steps| && AllWritesHold(steps[..Decider(steps) + 1])
    ensures var s, fragments := Exec(cfg, t, steps), Fragments(steps[..Decider(steps)]);
            && Bodies(s.published) == [ResponseCreated(ResponseOf(t))] + OpenStream(t.info.id, fragments)
                                      + CloseStream(t.info.id, fragments, s.task)
            && Gapless(s.published)
            && OutputText(s.task.output) == Join(fragments)
  {
    var k := Decider(steps);
    var before, fragments := steps[..k], Fragments(steps[..k]);
    assert AllWritesHold(before) && WriteOk(steps[k]) by {
      assert forall i :: 0 <= i < k ==> before[i] == steps[..k + 1][i];
      assert steps[..k + 1][k] == steps[k];
    }
    var p := Exec(cfg, t, before);
    RunStaysOpen(cfg, t, before);
    DecidedForGood(cfg, t, steps);
    SettlingStepCloses(cfg, t, fragments, p, steps[k]);
    if |fragments| > 0 {
      AssembledText(t.info.id, fragments, ItemCompleted, CiteAll([], Next(cfg, p, steps[k]).task.artifacts));
    }
  }

  // -------------------------------------------------- what failing writes cost

  /** The text a reader of the stream has put together. */
  function PublishedText(events: seq<Event>): string {
    if |events| == 0 then ""
    else
      var body := events[|events| - 1].body;
      PublishedText(events[..|events| - 1]) + if body.OutputTextDelta? then body.delta else ""
  }

  /** The fragments whose write failed. */
  function LostText(steps: seq<Step>): string {
    if |steps| == 0 then ""
    else
      var st := steps[|steps| - 1];
      LostText(steps[..|steps| - 1]) + if IsDelta(st) && !WriteOk(st) then st.update.delta else ""
  }

  /** The very first fragment's write failed, taking the opening events' numbers with it. */
  predicate OpeningLost(steps: seq<Step>) {
    |steps| > 0
    && (OpeningLost(steps[..|steps| - 1])
        || (IsDelta(steps[|steps| - 1]) && !WriteOk(steps[|steps| - 1]) && Fragments(steps[..|steps| - 1]) == []))
  }

  predicate SomeFragmentWritten(steps: seq<Step>) {
    exists i :: 0 <= i < |steps| && IsDelta(steps[i]) && WriteOk(steps[i])
  }

  /** The text on the task is all that was heard; the stream's is all of it that was written. */
  ghost predicate TextLedger(steps: seq<Step>, s: RunState) {
    && SingleMessage(s.task.output)
    && (MessageAt(s.task.output) < |s.task.output| <==> Fragments(steps) != [])
    && OutputText(s.task.output) == Join(Fragments(steps))
    && |OutputText(s.task.output)| == |PublishedText(s.published)| + |LostText(steps)|
    && (LostText(steps) == "" ==> PublishedText(s.published) == OutputText(s.task.output))
  }

  /** Numbers are used up without being published by a lost opening, and by nothing else. */
  ghost predicate NumberLedger(steps: seq<Step>, s: RunState) {
    && |s.published| >= 1 && s.published[0].seqNo == 0
    && if OpeningLost(steps) then
         && Fragments(steps) != []
         && s.n == |s.published| + 2
         && (|s.published| > 1 <==> SomeFragmentWritten(steps))
         && (|s.published| > 1 ==> s.published[1].seqNo == 3)
       else
         && s.n == |s.published| && Gapless(s.published)
         && (Fragments(steps) == [] ==> !SomeFragmentWritten(steps) && |s.published| == 1)
  }

  lemma {:induction false} PublishedTextOfExtension(events: seq<Event>, more: seq<Event>)
    ensures PublishedText(events + more) == PublishedText(events) + PublishedText(more)
    decreases |more|
  {
    if |more| == 0 {
      assert events + more == events;
    } else {
      PublishedTextOfExtension(events, more[..|more| - 1]);
      assert (events + more)[..|events + more| - 1] == events + more[..|more| - 1];
    }
  }

  lemma DeltaPublishes(task: TaskState, delta: string, n: nat, writeOk: bool)
    ensures PublishedText(ApplyDelta(task, delta, n, writeOk).events) == if writeOk then delta else ""
  {
    var events := ApplyDelta(task, delta, n, writeOk).events;
    if writeOk {
      var rest := events[..|events| - 1];
      if |rest| > 0 {
        assert rest[0] == events[0] && rest[1] == events[1];
        assert PublishedText(rest[..1]) == PublishedText(rest[..1][..0]) + "";
        assert PublishedText(rest) == PublishedText(rest[..1]) + "";
      }
      assert PublishedText(rest) == "";
    }
  }

  lemma JoinMore(fragments: seq<string>, delta: string)
    ensures Join(fragments + [delta]) == Join(fragments) + delta
  {
    assert (fragments + [delta])[..|fragments|] == fragments;
  }

  lemma StepKeepsTextLedger(cfg: RunConfig, steps: seq<Step>, s: RunState)
    requires |steps| > 0 && !s.ended && s.task.status == InProgress && !Decides(steps[|steps| - 1])
    requires TextLedger(steps[..|steps| - 1], s)
    ensures TextLedger(steps, Next(cfg, s, steps[|steps| - 1]))
  {
    var prefix, st := steps[..|steps| - 1], steps[|steps| - 1];
    UnsettlingEffect(cfg, s, st);
    var a := Effect(cfg, s, st);
    PublishedTextOfExtension(s.published, a.events);
    if IsDelta(st) {
      DeltaShape(s.task, st.update.delta, s.n, WriteOk(st));
      DeltaPublishes(s.task, st.update.delta, s.n, WriteOk(st));
      AppendTextAppends(s.task.info.id, s.task.output, st.update.delta);
      JoinMore(Fragments(prefix), st.update.delta);
    } else {
      assert Fragments(prefix) + [] == Fragments(prefix);
      assert s.published + [] == s.published;
    }
  }

  lemma {:induction false} RunKeepsTextLedger(cfg: RunConfig, t: TaskState, steps: seq<Step>)
    requires FreshTask(t) && Undecided(steps)
    ensures TextLedger(steps, Exec(cfg, t, steps))
  {
    if |steps| > 0 {
      RunKeepsTextLedger(cfg, t, steps[..|steps| - 1]);
      UndecidedIsInProgress(cfg, t, steps[..|steps| - 1]);
      StepKeepsTextLedger(cfg, steps, Exec(cfg, t, steps[..|steps| - 1]));
    } else {
      var p := Begin(t).published;
      assert PublishedText(p) == PublishedText(p[..0]) + "";
    }
  }

  lemma WrittenGrows(steps: seq<Step>)
    requires |steps| > 0
    ensures var st := steps[|steps| - 1];
            SomeFragmentWritten(steps) == (SomeFragmentWritten(steps[..|steps| - 1]) || (IsDelta(st) && WriteOk(st)))
  {
    var prefix := steps[..|steps| - 1];
    if SomeFragmentWritten(prefix) {
      var i :| 0 <= i < |prefix| && IsDelta(prefix[i]) && WriteOk(prefix[i]);
      assert steps[i] == prefix[i];
    }
  }

  lemma StepKeepsNumberLedger(cfg: RunConfig, steps: seq<Step>, s: RunState)
    requires |steps| > 0 && !s.ended && s.task.status == InProgress && !Decides(steps[|steps| - 1])
    requires TextLedger(steps[..|steps| - 1], s) && NumberLedger(steps[..|steps| - 1], s)
    ensures NumberLedger(steps, Next(cfg, s, steps[|steps| - 1]))
  {
    var st := steps[|steps| - 1];
    UnsettlingEffect(cfg, s, st);
    WrittenGrows(steps);
    var a := Effect(cfg, s, st);
    if IsDelta(st) {
      DeltaShape(s.task, st.update.delta, s.n, WriteOk(st));
      assert !WriteOk(st) ==> s.published + a.events == s.published;
    } else {
      assert s.published + a.events == s.published;
    }
  }

  lemma {:induction false} RunKeepsNumberLedger(cfg: RunConfig, t: TaskState, steps: seq<Step>)
    requires FreshTask(t) && Undecided(steps)
    ensures NumberLedger(steps, Exec(cfg, t, steps))
  {
    if |steps| > 0 {
      var prefix := steps[..|steps| - 1];
      RunKeepsTextLedger(cfg, t, prefix);
      RunKeepsNumberLedger(cfg, t, prefix);
      UndecidedIsInProgress(cfg, t, prefix);
      StepKeepsNumberLedger(cfg, steps, Exec(cfg, t, prefix));
    }
  }

  /**
   With writes failing anywhere: the final text is everything the adapter said, and a reader
   who puts the published fragments together has all of it exactly when no fragment that
   says something failed to be written.
   */
  lemma StreamedTextIsWholeIffNothingWasLost(cfg: RunConfig, t: TaskState, steps: seq<Step>)
    requires FreshTask(t) && Decider(steps) < |steps|
    ensures var s, before := Exec(cfg, t, steps), steps[..Decider(steps)];
            && OutputText(s.task.output) == Join(Fragments(before))
            && (PublishedText(s.published) == OutputText(s.task.output) <==> LostText(before) == "")
  {
    var k := Decider(steps);
    var p := Exec(cfg, t, steps[..k]);
    DecidedForGood(cfg, t, steps);
    RunKeepsTextLedger(cfg, t, steps[..k]);
    SettlingKeepsText(cfg, p, steps[k]);
    WholeIffNothingLost(steps[..k], p);
  }

  lemma WholeIffNothingLost(steps: seq<Step>, p: RunState)
    requires TextLedger(steps, p)
    ensures PublishedText(p.published) == OutputText(p.task.output) <==> LostText(steps) == ""
  {
  }

  /** The settling step adds no text, neither to the task nor to the stream. */
  lemma SettlingKeepsText(cfg: RunConfig, p: RunState, st: Step)
    requires !p.ended && p.task.status == InProgress && Decides(st) && SingleMessage(p.task.output)
    ensures var s := Next(cfg, p, st);
            && OutputText(s.task.output) == OutputText(p.task.output)
            && PublishedText(s.published) == PublishedText(p.published)
  {
    SettlingEffect(cfg, p, st);
    var d, o := Declared(p, st), OutsideOf(st);
    var a := ApplyTerminal(d, TerminalTypeOf(d.status), p.n, o);
    ClosingKeepsText(d.output, d.artifacts + o.captured);
    TerminalPublishesNoFragment(d, TerminalTypeOf(d.status), p.n, o);
    PublishedTextOfExtension(p.published, a.events);
    StepEffect(cfg, p, st);
  }

  lemma {:induction false} NoFragmentNoText(events: seq<Event>)
    requires forall i :: 0 <= i < |events| ==> !events[i].body.OutputTextDelta?
    ensures PublishedText(events) == ""
  {
    if |events| > 0 {
      NoFragmentNoText(events[..|events| - 1]);
    }
  }

  lemma TerminalPublishesNoFragment(t: TaskState, kind: TerminalType, n: nat, o: Outside)
    ensures PublishedText(ApplyTerminal(t, kind, n, o).events) == ""
  {
    NoFragmentNoText(ApplyTerminal(t, kind, n, o).events);
  }

  lemma GaplessOutcome(steps: seq<Step>, p: RunState, a: Applied)
    requires NumberLedger(steps, p) && NumberedFrom(a, p.n) && (a.ok ==> EndsWithTerminal(a))
    ensures Gapless(p.published + a.events) <==> !OpeningLost(steps) || (!SomeFragmentWritten(steps) && !a.ok)
  {
    var final := p.published + a.events;
    if !OpeningLost(steps) {
      GaplessExtends(p, a);
    } else if |p.published| > 1 {
      assert final[1] == p.published[1];
    } else if a.ok {
      assert final[1] == a.events[0];
    } else {
      assert final == p.published;
    }
  }

  /**
   With writes failing anywhere: no number is missing from the stream unless the write of the
   very first fragment failed, which uses up the two opening numbers, and something was still
   published afterwards.
   */
  lemma StreamIsGaplessIff(cfg: RunConfig, t: TaskState, steps: seq<Step>)
    requires FreshTask(t) && Decider(steps) < |steps|
    ensures var s, k := Exec(cfg, t, steps), Decider(steps);
            Gapless(s.published) <==>
              !OpeningLost(steps[..k]) || (!SomeFragmentWritten(steps[..k]) && !WriteOk(steps[k]))
  {
    var k := Decider(steps);
    var p, st := Exec(cfg, t, steps[..k]), steps[k];
    DecidedForGood(cfg, t, steps);
    RunKeepsNumberLedger(cfg, t, steps[..k]);
    StepEffect(cfg, p, st);
    GaplessOutcome(steps[..k], p, Effect(cfg, p, st));
  }

  function Fragment(delta: string, writeOk: bool): Step {
    Receive(RunUpdate(Delta, delta, None, "", "", None, None, ""), Outside(writeOk, []))
  }

  /** Two fragments, the first of which the store does not take: after number 0 comes number 3. */
  lemma LostOpeningLeavesAHole(cfg: RunConfig, t: TaskState, first: string, second: string)
    requires FreshTask(t)
    ensures var s := Exec(cfg, t, [Fragment(first, false), Fragment(second, true)]);
            && |s.published| > 1 && s.published[0].seqNo == 0 && s.published[1].seqNo == 3
            && !Gapless(s.published)
  {
    var steps := [Fragment(first, false), Fragment(second, true)];
    RunKeepsNumberLedger(cfg, t, steps);
    assert steps[..1] == [Fragment(first, false)] && steps[..1][..0] == [];
    assert OpeningLost(steps[..1]);
    assert IsDelta(steps[1]) && WriteOk(steps[1]);
  }
}
