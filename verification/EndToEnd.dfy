/**
 The parts put together: what the supervisor publishes, the log retains, a subscription hands
 over, and a client that keeps losing its connection reads in the end.
 */
module EndToEnd {
  import Wrappers
  import opened Protocol
  import opened EventLogs
  import opened Tasks
  import opened Supervision
  import opened SupervisionLaws
  import opened StreamLaws
  import opened ClientStream
  import opened FeedClient
  import Subscription

  /**
   A subscription that lasts until the log is finished is handed everything from its origin on,
   however appends, evictions, the close, and the reader's own sleeps and wakeups interleaved.
   For a client that named a number, and for any client of a run's log, which never evicts,
   that is what the client's side takes it to be served.
   */
  lemma ServedIsWhatASubscriptionHands(retain: int, header: Wrappers.Option<nat>, steps: seq<Subscription.Step>)
    requires var s := Subscription.Exec(retain, StartingAt(header), steps);
             Subscription.Enabled(s, Subscription.TakeLock)
             && Subscription.Next(s, Subscription.TakeLock).reader.phase == Subscription.Over(Subscription.Complete)
    ensures var s := Subscription.Exec(retain, StartingAt(header), steps);
            var r := Subscription.Next(s, Subscription.TakeLock).reader;
            && r.origin.Some?
            && r.handed == s.log.history[FirstAt(s.log.history, r.origin.value)..]
            && (header.Some? || retain <= 0 ==> r.handed == Served(s.log.history, header))
  {
    var s := Subscription.Exec(retain, StartingAt(header), steps);
    Subscription.CompleteMeansEverything(retain, StartingAt(header), steps);
    Subscription.ExecInv(retain, StartingAt(header), steps);
    if header.None? && retain <= 0 {
      Subscription.UnboundedOldestIsZero(retain, steps + [Subscription.TakeLock]);
      assert (steps + [Subscription.TakeLock])[..|steps|] == steps;
      FirstAtUnique(s.log.history, -1, 0);
      FirstAtUnique(s.log.history, 0, 0);
    }
  }

  /** And a reader that begins on a finished log is handed what the log, as it stands, serves. */
  lemma AFinishedLogServesWhatItHolds(l: Log, from: int)
    requires Window(l) && l.finished && (from < 0 || from >= l.oldest)
    ensures var s := Subscription.System(l, Subscription.Reader(from, Wrappers.None, from, Subscription.Ready, []));
            && Subscription.RunAlone(s).reader.phase == Subscription.Over(Subscription.Complete)
            && Subscription.RunAlone(s).reader.handed == ServedNow(l, from)
  {
    var s := Subscription.System(l, Subscription.Reader(from, Wrappers.None, from, Subscription.Ready, []));
    Subscription.FinishedLogIsReadToTheEnd(s);
    var start := if from < 0 then l.oldest else from;
    Subscription.FirstAtInWindow(l, start);
  }

  /**
   A run none of whose writes failed, read over any number of connections each dropped
   anywhere: the client has a prefix of the stream, each event once, in order, and no gap is
   ever reported; once it has been given as many events as there are, it has the whole stream,
   one terminal event at its end, and its fragments are the text of the final response.
   */
  lemma ClientReadsTheWholeAnswer(cfg: RunConfig, t: TaskState, steps: seq<Step>, cuts: seq<nat>)
    requires FreshTask(t) && Decider(steps) < |steps| && AllWritesHold(steps[..Decider(steps) + 1])
    ensures var s, (got, clean) := Exec(cfg, t, steps), Reconnecting(Exec(cfg, t, steps).published, 0, cuts);
            && clean && got == s.published[..Reach(s.published, 0, Sum(cuts))]
            && (Sum(cuts) >= |s.published| ==>
                  && got == s.published && PublishedText(got) == OutputText(s.task.output)
                  && forall i :: 0 <= i < |got| ==> (got[i].body.Terminal? <==> i == |got| - 1))
  {
    var s := Exec(cfg, t, steps);
    StreamIsWellBracketed(cfg, t, steps);
    ReconnectingReadsEverythingOnce(s.published, 0, cuts);
    assert forall n: nat :: n <= |s.published| ==> s.published[0..n] == s.published[..n];
    assert s.published[..|s.published|] == s.published;
    StreamedTextIsWholeIffNothingWasLost(cfg, t, steps);
    ExactlyOneTerminalIffAccepted(cfg, t, steps);
    assert steps[..Decider(steps) + 1][Decider(steps)] == steps[Decider(steps)];
    var before := steps[..Decider(steps)];
    forall i | 0 <= i < |before| ensures WriteOk(before[i]) {
      assert before[i] == steps[..Decider(steps) + 1][i];
    }
    NothingLostWhenAllWritesHold(before);
  }

  lemma {:induction false} NothingLostWhenAllWritesHold(steps: seq<Step>)
    requires AllWritesHold(steps)
    ensures LostText(steps) == ""
    decreases steps
  {
    if |steps| > 0 {
      NothingLostWhenAllWritesHold(steps[..|steps| - 1]);
      assert WriteOk(steps[|steps| - 1]);
    }
  }

  /**
   With writes failing: the client reads all that was published without a gap reported if and
   only if the first fragment's write held, or nothing at all was published after it.
   Otherwise it is told of a gap and stops there.
   */
  lemma ClientStopsAtAHoleIff(cfg: RunConfig, t: TaskState, steps: seq<Step>)
    requires FreshTask(t) && Decider(steps) < |steps|
    ensures var s, k := Exec(cfg, t, steps), Decider(steps);
            var (got, e) := ReadUntilError(s.published, 0);
            && (e.EndOfStream? <==>
                  !OpeningLost(steps[..k]) || (!SomeFragmentWritten(steps[..k]) && !WriteOk(steps[k])))
            && (e.EndOfStream? <==> got == s.published)
  {
    var s := Exec(cfg, t, steps);
    StreamIsGaplessIff(cfg, t, steps);
    GapIsReportedNotPassedOver(s.published, 0);
    var (got, e) := ReadUntilError(s.published, 0);
    if Gapless(s.published) {
      ConsecutiveIsReadWhole(s.published, 0);
    }
    if |got| == |s.published| {
      assert got == s.published;
      assert forall i :: 0 <= i < |got| ==> got[i].seqNo == i;
    }
  }
}
