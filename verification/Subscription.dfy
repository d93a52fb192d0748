/**
 One reader of a retained log, interleaved with everything that can happen to the log while
 the reader has let go of its lock: appends (with their evictions), and the final close.
 */
module Subscription {
  import opened Wrappers
  import opened Protocol
  import opened EventLogs

  /** Why a subscription returned. */
  datatype End = Complete | Gap(from: nat, oldest: nat) | CallbackFailed | Abandoned

  /** Where the reader is: about to take the lock, inside its callback, asleep, or returned. */
  datatype Phase = Ready | Calling(ev: Event) | Asleep(channel: nat) | Over(end: End)

  /** `origin` is the number the stream was read from, known once the first pass has resolved it. */
  datatype Reader = Reader(from: int, origin: Option<nat>, next: int, phase: Phase, handed: seq<Event>)

  datatype System = System(log: Log, reader: Reader)

  datatype Step =
    | Append(ev: Event)
    | CloseLog
    | TakeLock
    | CallbackReturns(ok: bool)
    | ChannelClosed
    | IdleTick(ok: bool)
    | ContextDone

  function Start(retain: int, from: int): System {
    System(Empty(retain), Reader(from, None, from, Ready, []))
  }

  predicate Enabled(s: System, st: Step) {
    match st
    case Append(ev) => ev.seqNo >= Head(s.log)
    case CloseLog => true
    case TakeLock => s.reader.phase.Ready?
    case CallbackReturns(_) => s.reader.phase.Calling?
    case ChannelClosed => s.reader.phase.Asleep? && s.reader.phase.channel in s.log.closed
    case IdleTick(_) => s.reader.phase.Asleep?
    case ContextDone => s.reader.phase.Asleep?
  }

  ghost function AfterPass(r: Reader, l: Log): Reader {
    var origin := if r.origin.None? then Some(if r.from < 0 then l.oldest else r.from) else r.origin;
    match Pass(l, r.next)
    case Refused(from, oldest) => r.(origin := origin, phase := Over(Gap(from, oldest)))
    case Handed(ev, after) => r.(origin := origin, next := after, phase := Calling(ev), handed := r.handed + [ev])
    case Finished(at) => r.(origin := origin, next := at, phase := Over(Complete))
    case Wait(at, channel) => r.(origin := origin, next := at, phase := Asleep(channel))
  }

  ghost function Next(s: System, st: Step): System
    requires Enabled(s, st)
  {
    match st
    case Append(ev) => s.(log := Appended(s.log, ev))
    case CloseLog => s.(log := Closed(s.log))
    case TakeLock => s.(reader := AfterPass(s.reader, s.log))
    case CallbackReturns(ok) => s.(reader := s.reader.(phase := if ok then Ready else Over(CallbackFailed)))
    case ChannelClosed => s.(reader := s.reader.(phase := Ready))
    case IdleTick(ok) => s.(reader := s.reader.(phase := if ok then Ready else Over(CallbackFailed)))
    case ContextDone => s.(reader := s.reader.(phase := Over(Abandoned)))
  }

  /** A step that is not possible where it stands changes nothing, so every step sequence is a run. */
  ghost function Exec(retain: int, from: int, steps: seq<Step>): System {
    if |steps| == 0 then Start(retain, from)
    else
      var s := Exec(retain, from, steps[..|steps| - 1]);
      var st := steps[|steps| - 1];
      if Enabled(s, st) then Next(s, st) else s
  }

  /** How many events any run of the log holds, by how many were ever appended. */
  lemma {:induction false} WindowHoldsExactlySoMany(retain: int, from: int, steps: seq<Step>)
    ensures var l := Exec(retain, from, steps).log;
            l.retain == retain && |l.events| == HeldOf(|l.history|, retain)
  {
    if |steps| > 0 {
      var s, st := Exec(retain, from, steps[..|steps| - 1]), steps[|steps| - 1];
      WindowHoldsExactlySoMany(retain, from, steps[..|steps| - 1]);
      if Enabled(s, st) && st.Append? {
        AppendHoldsExactly(s.log, st.ev);
      }
    }
  }

  // -------------------------------------------------------------- the invariant

  /** The part of a history numbered from a up to, not including, b. */
  ghost predicate IsRange(part: seq<Event>, history: seq<Event>, a: int, b: int) {
    var i, j := FirstAt(history, a), FirstAt(history, b);
    i <= j && part == history[i..j]
  }

  lemma RangeIsEmpty(history: seq<Event>, a: int)
    ensures IsRange([], history, a, a)
  {
  }

  lemma RangeExtends(part: seq<Event>, history: seq<Event>, a: int, b: int)
    requires Increasing(history) && a <= b && IsRange(part, history, a, b)
    requires FirstAt(history, b) < |history|
    ensures var ev := history[FirstAt(history, b)]; IsRange(part + [ev], history, a, ev.seqNo + 1)
  {
    var j := FirstAt(history, b);
    FirstAtUnique(history, history[j].seqNo + 1, j + 1);
  }

  lemma FirstAtOfExtension(history: seq<Event>, ev: Event, x: int)
    requires Increasing(history) && Increasing(history + [ev]) && x <= ev.seqNo
    ensures FirstAt(history + [ev], x) == FirstAt(history, x)
  {
    var h := history + [ev];
    var r := FirstAt(history, x);
    assert r > 0 ==> h[r - 1] == history[r - 1];
    assert r < |history| ==> h[r] == history[r];
    FirstAtUnique(h, x, r);
  }

  lemma RangeSurvivesAppend(part: seq<Event>, history: seq<Event>, ev: Event, a: int, b: int)
    requires Increasing(history) && Increasing(history + [ev]) && IsRange(part, history, a, b)
    requires a <= b <= ev.seqNo || a == b
    ensures IsRange(part, history + [ev], a, b)
  {
    if a == b {
      RangeIsEmpty(history + [ev], a);
    } else {
      FirstAtOfExtension(history, ev, a);
      FirstAtOfExtension(history, ev, b);
    }
  }

  /** A reader that sleeps on the log's current channel has seen everything and the log is not finished. */
  ghost predicate NothingMissed(s: System) {
    s.reader.phase.Asleep? ==>
      && s.reader.phase.channel <= s.log.notify
      && (s.reader.phase.channel == s.log.notify ==> !s.log.finished && Head(s.log) <= s.reader.next)
  }

  ghost predicate HandedInOrder(r: Reader, history: seq<Event>, head: nat) {
    if r.origin.None? then
      r.next == r.from && r.handed == [] && r.phase.Ready?
    else
      && r.origin.value <= r.next
      && (r.from >= 0 ==> r.origin.value == r.from)
      && IsRange(r.handed, history, r.origin.value, r.next)
      && (r.next <= head || r.next == r.origin.value)
  }

  ghost predicate Inv(s: System) {
    && Window(s.log)
    && NothingMissed(s)
    && HandedInOrder(s.reader, s.log.history, Head(s.log))
  }

  /** In a window, the first event at or after an unevicted position is the same in the whole history. */
  lemma FirstAtInWindow(l: Log, x: int)
    requires Window(l) && x >= l.oldest
    ensures FirstAt(l.history, x) == |l.history| - |l.events| + FirstAt(l.events, x)
  {
    var d := |l.history| - |l.events|;
    var i := FirstAt(l.events, x);
    assert i > 0 ==> l.history[d + i - 1] == l.events[i - 1];
    assert i == 0 && d > 0 ==> l.history[d - 1].seqNo < l.oldest;
    assert i < |l.events| ==> l.history[d + i] == l.events[i];
    FirstAtUnique(l.history, x, d + i);
  }

  /** What a pass hands over is the history's next event at or after the reader's position. */
  lemma PassReadsHistory(l: Log, next: nat)
    requires Window(l) && l.oldest <= next
    ensures match Pass(l, next)
            case Refused(_, _) => false
            case Handed(ev, after) =>
              var k := FirstAt(l.history, next);
              k < |l.history| && ev == l.history[k] && after == ev.seqNo + 1 <= Head(l) && after > next
            case Finished(at) => at == next && Head(l) <= next && l.finished
            case Wait(at, c) => at == next && Head(l) <= next && !l.finished && c == l.notify
  {
    FirstAtInWindow(l, next);
    HeadIsOnePastNewest(l);
    var i, d := FirstAt(l.events, next), |l.history| - |l.events|;
    if i < |l.events| {
      assert l.events[i] == l.history[d + i];
    }
  }

  lemma PassKeepsHanded(l: Log, r: Reader)
    requires Window(l) && HandedInOrder(r, l.history, Head(l)) && r.phase.Ready?
    ensures HandedInOrder(AfterPass(r, l), l.history, Head(l))
  {
    var next: nat := if r.next < 0 then l.oldest else r.next;
    var origin: nat := if r.origin.None? then next else r.origin.value;
    PassOrigin(l, r);
    if r.origin.None? {
      RangeIsEmpty(l.history, origin);
    }
    if l.oldest <= next {
      PassReadsHistory(l, next);
      if Pass(l, next).Handed? {
        RangeExtends(r.handed, l.history, origin, next);
      }
    }
  }

  /** A pass resolves the origin once and reads from where the reader stands. */
  lemma PassOrigin(l: Log, r: Reader)
    requires HandedInOrder(r, l.history, Head(l)) && r.phase.Ready?
    ensures var next: nat := if r.next < 0 then l.oldest else r.next;
            && Pass(l, r.next) == Pass(l, next)
            && AfterPass(r, l).origin == Some(if r.origin.None? then next else r.origin.value)
            && AfterPass(r, l).from == r.from
  {
  }

  lemma AppendKeepsHanded(l: Log, r: Reader, ev: Event)
    requires Window(l) && HandedInOrder(r, l.history, Head(l)) && ev.seqNo >= Head(l)
    ensures HandedInOrder(r, l.history + [ev], ev.seqNo + 1)
  {
    AppendKeepsIncreasing(l, ev);
    if r.origin.Some? {
      RangeSurvivesAppend(r.handed, l.history, ev, r.origin.value, r.next);
    }
  }

  lemma PassKeepsNothingMissed(s: System)
    requires Inv(s) && s.reader.phase.Ready?
    ensures NothingMissed(Next(s, TakeLock))
  {
    var next: nat := if s.reader.next < 0 then s.log.oldest else s.reader.next;
    if s.log.oldest <= next {
      PassReadsHistory(s.log, next);
      assert Pass(s.log, s.reader.next) == Pass(s.log, next);
    }
  }

  lemma StepKeepsInv(s: System, st: Step)
    requires Inv(s) && Enabled(s, st)
    ensures Inv(Next(s, st))
  {
    match st
    case Append(ev) =>
      AppendKeepsWindow(s.log, ev);
      AppendKeepsHanded(s.log, s.reader, ev);
    case CloseLog =>
      CloseKeepsWindow(s.log);
    case TakeLock =>
      PassKeepsHanded(s.log, s.reader);
      PassKeepsNothingMissed(s);
    case _ =>
  }

  /** A step never changes where the subscription started, and the reader's steps never change the log. */
  lemma StepFrame(s: System, st: Step)
    requires Enabled(s, st)
    ensures Next(s, st).reader.from == s.reader.from
    ensures !st.Append? && !st.CloseLog? ==> Next(s, st).log == s.log
  {
  }

  lemma {:induction false} ExecInv(retain: int, from: int, steps: seq<Step>)
    ensures Inv(Exec(retain, from, steps))
    ensures Exec(retain, from, steps).reader.from == from
  {
    if |steps| == 0 {
      EmptyIsWindow(retain);
    } else {
      var p := Exec(retain, from, steps[..|steps| - 1]);
      ExecInv(retain, from, steps[..|steps| - 1]);
      if Enabled(p, steps[|steps| - 1]) {
        StepKeepsInv(p, steps[|steps| - 1]);
        StepFrame(p, steps[|steps| - 1]);
      }
    }
  }

  // ------------------------------------------------------------- what it means

  /**
   Whatever interleaving led here, a subscription from n has been handed exactly the events
   of the whole history numbered n up to `next`, in order, however the window moved.
   */
  lemma HandsTheHistory(retain: int, from: int, steps: seq<Step>)
    ensures var s := Exec(retain, from, steps);
            && Increasing(s.log.history)
            && (s.reader.origin.None? ==> s.reader.handed == [])
            && (s.reader.origin.Some? ==>
                  && (from >= 0 ==> s.reader.origin.value == from)
                  && IsRange(s.reader.handed, s.log.history, s.reader.origin.value, s.reader.next))
  {
    ExecInv(retain, from, steps);
  }

  lemma CompletePassLeavesNothing(s: System)
    requires Inv(s) && s.reader.phase.Ready?
    requires Next(s, TakeLock).reader.phase == Over(Complete)
    ensures s.log.finished
    ensures var r := Next(s, TakeLock).reader;
            r.origin.Some? && r.handed == s.log.history[FirstAt(s.log.history, r.origin.value)..]
  {
    var next: nat := if s.reader.next < 0 then s.log.oldest else s.reader.next;
    PassKeepsHanded(s.log, s.reader);
    PassReadsHistory(s.log, next);
    assert Pass(s.log, s.reader.next) == Pass(s.log, next);
    HeadIsOnePastNewest(s.log);
    FirstAtUnique(s.log.history, next, |s.log.history|);
  }

  /** On a log that never evicts, starting at the oldest is starting at zero. */
  lemma {:induction false} UnboundedOldestIsZero(retain: int, steps: seq<Step>)
    requires retain <= 0
    ensures var s := Exec(retain, -1, steps);
            s.log.retain == retain && (s.reader.origin.Some? ==> s.reader.origin.value == 0)
  {
    if |steps| > 0 {
      UnboundedOldestIsZero(retain, steps[..|steps| - 1]);
      ExecInv(retain, -1, steps[..|steps| - 1]);
    }
  }

  /** A subscription that returns without an error saw a finished log and left nothing behind. */
  lemma CompleteMeansEverything(retain: int, from: int, steps: seq<Step>)
    requires var s := Exec(retain, from, steps);
             Enabled(s, TakeLock) && Next(s, TakeLock).reader.phase == Over(Complete)
    ensures var s := Exec(retain, from, steps);
            var r := Next(s, TakeLock).reader;
            && s.log.finished
            && r.origin.Some? && (from >= 0 ==> r.origin.value == from)
            && r.handed == s.log.history[FirstAt(s.log.history, r.origin.value)..]
  {
    ExecInv(retain, from, steps);
    var s := Exec(retain, from, steps);
    CompletePassLeavesNothing(s);
    PassKeepsHanded(s.log, s.reader);
  }

  /**
   A pass is refused exactly when the reader's next number is below the window, so a reader
   that named no number cannot be refused on its first pass.
   */
  lemma RefusedIffBelowTheWindow(retain: int, from: int, steps: seq<Step>)
    requires Enabled(Exec(retain, from, steps), TakeLock)
    ensures var s := Exec(retain, from, steps);
            && (0 <= s.reader.next < s.log.oldest ==>
                  Next(s, TakeLock).reader.phase == Over(Gap(s.reader.next, s.log.oldest)))
            && (!(0 <= s.reader.next < s.log.oldest) ==>
                  !Pass(s.log, s.reader.next).Refused?)
            && (from < 0 && s.reader.origin.None? ==> s.reader.next < 0)
  {
    ExecInv(retain, from, steps);
  }

  /** Refused: what was wanted had fallen below the window, and the window never comes back to it. */
  ghost predicate RefusedRightly(s: System) {
    match s.reader.phase
    case Over(Gap(f, o)) => s.reader.origin.Some? && 0 <= f == s.reader.next < o <= s.log.oldest
    case _ => true
  }

  lemma StepKeepsRefusedRightly(s: System, st: Step)
    requires Inv(s) && RefusedRightly(s) && Enabled(s, st)
    ensures RefusedRightly(Next(s, st))
  {
    if st.Append? {
      AppendNeverLowersOldest(s.log, st.ev);
    }
  }

  lemma {:induction false} RefusalsAreRight(retain: int, from: int, steps: seq<Step>)
    ensures RefusedRightly(Exec(retain, from, steps))
  {
    if |steps| > 0 {
      var p := Exec(retain, from, steps[..|steps| - 1]);
      RefusalsAreRight(retain, from, steps[..|steps| - 1]);
      ExecInv(retain, from, steps[..|steps| - 1]);
      if Enabled(p, steps[|steps| - 1]) {
        StepKeepsRefusedRightly(p, steps[|steps| - 1]);
      }
    }
  }

  /**
   A subscription that has ended in the gap error for f, the oldest then being o, had been
   handed everything from its origin up to f; every event numbered from f up to o is gone from
   the log, for good; and a reader that started at the oldest had got past its first pass.
   */
  lemma GapMeansEvicted(retain: int, from: int, steps: seq<Step>, f: nat, o: nat)
    requires Exec(retain, from, steps).reader.phase == Over(Gap(f, o))
    ensures var s := Exec(retain, from, steps);
            && f < o <= s.log.oldest
            && s.reader.origin.Some? && IsRange(s.reader.handed, s.log.history, s.reader.origin.value, f)
            && (forall ev :: ev in s.log.events ==> ev.seqNo >= o)
            && (from >= 0 ==> s.reader.origin.value == from)
            && (from < 0 ==> s.reader.next >= 0)
  {
    RefusalsAreRight(retain, from, steps);
    ExecInv(retain, from, steps);
  }

  /** With no holes in the numbering, a refusal is honest: that very event existed and was evicted. */
  lemma RefusalIsHonest(retain: int, from: int, steps: seq<Step>)
    requires var s := Exec(retain, from, steps);
             && Gapless(s.log.history)
             && Enabled(s, TakeLock) && 0 <= s.reader.next < s.log.oldest
    ensures var s := Exec(retain, from, steps);
            var f := s.reader.next;
            f < |s.log.history| && s.log.history[f].seqNo == f && s.log.history[f] !in s.log.events
  {
    ExecInv(retain, from, steps);
    var s := Exec(retain, from, steps);
    var l, f := s.log, s.reader.next;
    var d := |l.history| - |l.events|;
    assert l.events[0] == l.history[d];
    WindowHoldsExactlyTheRecent(l, f);
  }

  /** No wakeup is lost: a sleeper with something to see holds a channel already closed. */
  lemma NoLostWakeup(retain: int, from: int, steps: seq<Step>)
    requires var s := Exec(retain, from, steps);
             && s.reader.phase.Asleep?
             && (s.log.finished
                 || exists k :: 0 <= k < |s.log.history| && s.log.history[k].seqNo >= s.reader.next)
    ensures var s := Exec(retain, from, steps);
            s.reader.phase.channel in s.log.closed && Enabled(s, ChannelClosed)
  {
    ExecInv(retain, from, steps);
    HeadIsOnePastNewest(Exec(retain, from, steps).log);
  }

  // ------------------------------------------------------------------ liveness

  /** The reader's own next step, with a callback that succeeds. */
  function OwnStep(s: System): Step
    requires !s.reader.phase.Over?
  {
    match s.reader.phase
    case Ready => TakeLock
    case Calling(_) => CallbackReturns(true)
    case Asleep(_) => ChannelClosed
  }

  ghost function Left(s: System): nat {
    |s.log.events| - FirstAt(s.log.events, if s.reader.next < 0 then s.log.oldest else s.reader.next)
  }

  ghost function Effort(p: Phase): nat {
    match p case Over(_) => 0 case Ready => 1 case _ => 2
  }

  lemma PassMakesProgress(s: System)
    requires Inv(s) && s.reader.phase.Ready? && Next(s, TakeLock).reader.phase.Calling?
    ensures Left(Next(s, TakeLock)) < Left(s)
  {
    var l := s.log;
    WindowIsIncreasing(l);
    var i := FirstAt(l.events, if s.reader.next < 0 then l.oldest else s.reader.next);
    FirstAtUnique(l.events, l.events[i].seqNo + 1, i + 1);
  }

  ghost predicate Closer(t: System, s: System) {
    Left(t) < Left(s) || (Left(t) == Left(s) && Effort(t.reader.phase) < Effort(s.reader.phase))
  }

  lemma PassGetsCloser(s: System)
    requires Inv(s) && s.log.finished && s.reader.phase.Ready?
    ensures Closer(Next(s, TakeLock), s)
  {
    if Next(s, TakeLock).reader.phase.Calling? {
      PassMakesProgress(s);
    }
  }

  /** On a finished log the reader can always take its own step, and gets closer to returning. */
  lemma OwnStepProgress(s: System)
    requires Inv(s) && s.log.finished && !s.reader.phase.Over?
    ensures Enabled(s, OwnStep(s)) && Inv(Next(s, OwnStep(s))) && Next(s, OwnStep(s)).log == s.log
    ensures Closer(Next(s, OwnStep(s)), s)
  {
    StepKeepsInv(s, OwnStep(s));
    StepFrame(s, OwnStep(s));
    if s.reader.phase.Ready? {
      PassGetsCloser(s);
    }
  }

  /** The reader alone, run until it returns. */
  ghost function RunAlone(s: System): (e: System)
    requires Inv(s) && s.log.finished
    ensures e.reader.phase.Over? && e.log == s.log
    decreases Left(s), Effort(s.reader.phase)
  {
    if s.reader.phase.Over? then s
    else
      OwnStepProgress(s);
      RunAlone(Next(s, OwnStep(s)))
  }

  /** Where the subscription reads from: settled by its first pass, or about to be. */
  function OriginOf(s: System): nat {
    if s.reader.origin.Some? then s.reader.origin.value
    else if s.reader.next < 0 then s.log.oldest
    else s.reader.next
  }

  lemma OwnStepKeepsOrigin(s: System)
    requires Inv(s) && !s.reader.phase.Over? && Enabled(s, OwnStep(s))
    ensures OriginOf(Next(s, OwnStep(s))) == OriginOf(s)
    ensures s.reader.phase.Ready? ==> Next(s, OwnStep(s)).reader.origin.Some?
  {
  }

  lemma PositionStaysInWindow(s: System)
    requires Inv(s) && s.log.finished && !s.reader.phase.Over?
    requires s.reader.next >= s.log.oldest || s.reader.next < 0
    ensures var t := Next(s, OwnStep(s)).reader;
            if t.phase.Over? then t.phase == Over(Complete) else t.next >= s.log.oldest || t.next < 0
  {
    var next: nat := if s.reader.next < 0 then s.log.oldest else s.reader.next;
    PassReadsHistory(s.log, next);
    assert Pass(s.log, s.reader.next) == Pass(s.log, next);
  }

  /**
   Once a log is finished, a reader whose position is still in the window always returns, and
   returns having been handed the rest of the stream.
   */
  lemma {:induction false} FinishedLogIsReadToTheEnd(s: System)
    requires Inv(s) && s.log.finished && !s.reader.phase.Over?
    requires s.reader.next >= s.log.oldest || s.reader.next < 0
    ensures var r := RunAlone(s).reader;
            && r.phase == Over(Complete)
            && r.origin == Some(OriginOf(s))
            && r.handed == s.log.history[FirstAt(s.log.history, OriginOf(s))..]
    decreases Left(s), Effort(s.reader.phase)
  {
    var t := Next(s, OwnStep(s));
    OwnStepProgress(s);
    OwnStepKeepsOrigin(s);
    PositionStaysInWindow(s);
    if t.reader.phase.Over? {
      CompletePassLeavesNothing(s);
    } else {
      FinishedLogIsReadToTheEnd(t);
    }
  }
}
