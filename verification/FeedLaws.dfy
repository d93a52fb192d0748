/** One feed and the many runs that share it, interleaved in every way. */
module FeedLaws {
  import opened Wrappers
  import opened Protocol
  import opened EventLogs
  import opened Feeds

  /** A run's own log, and the event it has appended there but not yet taken to the feed. */
  datatype RunView = RunView(sessionId: string, log: seq<Event>, inFlight: Option<Event>)

  datatype Shared = Shared(feed: Log, numbers: nat, runs: map<string, RunView>)

  datatype Step =
    | Attach(task: string, session: string)
    | AppendOwn(task: string, ev: Event)
    | PublishToFeed(task: string)
    | CloseFeed

  function Begin(retain: int): Shared {
    Shared(Empty(retain), 0, map[])
  }

  /** A step that is not possible where it stands changes nothing. */
  function Next(s: Shared, st: Step): Shared {
    match st
    case Attach(task, session) =>
      if task in s.runs then s else s.(runs := s.runs[task := RunView(session, [], None)])
    case AppendOwn(task, ev) =>
      if task !in s.runs || s.runs[task].inFlight.Some? then s
      else s.(runs := s.runs[task := s.runs[task].(log := s.runs[task].log + [ev], inFlight := Some(ev))])
    case PublishToFeed(task) =>
      if task !in s.runs || s.runs[task].inFlight.None? then s
      else
        var run := s.runs[task];
        Shared(Appended(s.feed, Stamped(run.inFlight.value, s.numbers, task, run.sessionId)),
               s.numbers + 1,
               s.runs[task := run.(inFlight := None)])
    case CloseFeed => s.(feed := Closed(s.feed))
  }

  function Exec(retain: int, steps: seq<Step>): Shared {
    if |steps| == 0 then Begin(retain) else Next(Exec(retain, steps[..|steps| - 1]), steps[|steps| - 1])
  }

  /** The part of a feed that belongs to one task. */
  function OfTask(events: seq<Event>, task: string): seq<Event> {
    if |events| == 0 then []
    else
      var last := events[|events| - 1];
      OfTask(events[..|events| - 1], task) + if last.responseId == task then [last] else []
  }

  /** What a run has already taken to the feed: its log, less the event in flight. */
  function Taken(run: RunView): seq<Event> {
    if run.inFlight.Some? && |run.log| > 0 then run.log[..|run.log| - 1] else run.log
  }

  ghost predicate SameEvents(onFeed: seq<Event>, own: seq<Event>, sessionId: string) {
    |onFeed| == |own| && forall i :: 0 <= i < |own| ==>
      onFeed[i].body == own[i].body && onFeed[i].sessionId == sessionId
  }

  /** A feed's history holds of a task exactly what its run has taken there. */
  ghost predicate RunAgrees(history: seq<Event>, task: string, run: RunView) {
    && SameEvents(OfTask(history, task), Taken(run), run.sessionId)
    && (run.inFlight.Some? ==> |run.log| > 0 && run.log[|run.log| - 1] == run.inFlight.value)
  }

  /** The feed and one task agree; a task that never ran here has nothing on it. */
  ghost predicate Agree(s: Shared, task: string) {
    if task in s.runs then RunAgrees(s.feed.history, task, s.runs[task])
    else OfTask(s.feed.history, task) == []
  }

  ghost predicate Numbering(s: Shared) {
    Window(s.feed) && Gapless(s.feed.history) && s.numbers == |s.feed.history|
  }

  ghost predicate FeedInv(s: Shared) {
    Numbering(s) && forall task :: Agree(s, task)
  }

  lemma OfTaskMore(events: seq<Event>, ev: Event, task: string)
    ensures OfTask(events + [ev], task) == OfTask(events, task) + if ev.responseId == task then [ev] else []
  {
    assert (events + [ev])[..|events|] == events;
  }

  lemma AppendNext(l: Log, ev: Event)
    requires Window(l) && Gapless(l.history) && ev.seqNo == |l.history|
    ensures Window(Appended(l, ev)) && Gapless(Appended(l, ev).history)
    ensures Appended(l, ev).history == l.history + [ev]
  {
    PublishedNext(l, ev);
    AppendKeepsWindow(l, ev);
  }

  lemma SameEventsMore(onFeed: seq<Event>, own: seq<Event>, sessionId: string, out: Event, ev: Event)
    requires SameEvents(onFeed, own, sessionId) && out.body == ev.body && out.sessionId == sessionId
    ensures SameEvents(onFeed + [out], own + [ev], sessionId)
  {
  }

  lemma StepKeepsNumbering(s: Shared, st: Step)
    requires Numbering(s)
    ensures Numbering(Next(s, st))
  {
    match st
    case PublishToFeed(task) =>
      if task in s.runs && s.runs[task].inFlight.Some? {
        AppendNext(s.feed, Stamped(s.runs[task].inFlight.value, s.numbers, task, s.runs[task].sessionId));
      }
    case CloseFeed => CloseKeepsWindow(s.feed);
    case _ =>
  }

  lemma PublisherAgrees(history: seq<Event>, task: string, run: RunView, n: nat)
    requires RunAgrees(history, task, run) && run.inFlight.Some?
    ensures RunAgrees(history + [Stamped(run.inFlight.value, n, task, run.sessionId)], task, run.(inFlight := None))
  {
    var out := Stamped(run.inFlight.value, n, task, run.sessionId);
    OfTaskMore(history, out, task);
    assert run.log == Taken(run) + [run.inFlight.value];
    SameEventsMore(OfTask(history, task), Taken(run), run.sessionId, out, run.inFlight.value);
  }

  lemma OthersUnmoved(history: seq<Event>, out: Event, other: string)
    requires out.responseId != other
    ensures OfTask(history + [out], other) == OfTask(history, other)
  {
    OfTaskMore(history, out, other);
  }

  lemma PublishKeepsAgreement(s: Shared, task: string, other: string)
    requires task in s.runs && s.runs[task].inFlight.Some?
    requires Agree(s, task) && Agree(s, other)
    ensures Agree(Next(s, PublishToFeed(task)), other)
  {
    var run := s.runs[task];
    var out := Stamped(run.inFlight.value, s.numbers, task, run.sessionId);
    assert Appended(s.feed, out).history == s.feed.history + [out];
    if other == task {
      PublisherAgrees(s.feed.history, task, run, s.numbers);
    } else {
      OthersUnmoved(s.feed.history, out, other);
    }
  }

  lemma StepKeepsAgreement(s: Shared, st: Step, other: string)
    requires FeedInv(s)
    ensures Agree(Next(s, st), other)
  {
    assert Agree(s, other);
    match st
    case PublishToFeed(task) =>
      if task in s.runs && s.runs[task].inFlight.Some? {
        assert Agree(s, task);
        PublishKeepsAgreement(s, task, other);
      }
    case AppendOwn(task, ev) =>
      if task in s.runs && s.runs[task].inFlight.None? {
        assert (s.runs[task].log + [ev])[..|s.runs[task].log|] == s.runs[task].log;
      }
    case _ =>
  }

  lemma {:induction false} ExecInv(retain: int, steps: seq<Step>)
    ensures FeedInv(Exec(retain, steps))
  {
    if |steps| == 0 {
      EmptyIsWindow(retain);
    } else {
      var p, st := Exec(retain, steps[..|steps| - 1]), steps[|steps| - 1];
      ExecInv(retain, steps[..|steps| - 1]);
      StepKeepsNumbering(p, st);
      forall task ensures Agree(Next(p, st), task) {
        StepKeepsAgreement(p, st, task);
      }
    }
  }

  /**
   After any interleaving of publishes by any number of runs the feed is numbered 0, 1, 2, ...
   and its restriction to one task is that run's own log, in order and with bodies unchanged,
   behind it by the one event in flight and no more.
   */
  lemma FeedAgreesWithEveryRun(retain: int, steps: seq<Step>, task: string)
    requires task in Exec(retain, steps).runs
    ensures var s := Exec(retain, steps);
            var onFeed, own := OfTask(s.feed.history, task), s.runs[task].log;
            && Gapless(s.feed.history) && s.numbers == |s.feed.history|
            && |own| - 1 <= |onFeed| <= |own|
            && (|onFeed| == |own| <==> s.runs[task].inFlight.None?)
            && Bodies(onFeed) == Bodies(own)[..|onFeed|]
            && forall i :: 0 <= i < |onFeed| ==>
                 onFeed[i].responseId == task && onFeed[i].sessionId == s.runs[task].sessionId
  {
    ExecInv(retain, steps);
    assert Agree(Exec(retain, steps), task);
    OfTaskIsAttributed(Exec(retain, steps).feed.history, task);
  }

  lemma {:induction false} OfTaskIsAttributed(events: seq<Event>, task: string)
    ensures forall i :: 0 <= i < |OfTask(events, task)| ==> OfTask(events, task)[i].responseId == task
  {
    if |events| > 0 {
      OfTaskIsAttributed(events[..|events| - 1], task);
    }
  }
}
