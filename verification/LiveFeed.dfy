/**
 A feed while it is read: the window may pass the reader by. The server can then only say so on
 the stream itself, in an event that carries the number of the one that is gone.
 */
module LiveFeed {
  import opened Wrappers
  import opened Protocol
  import opened EventLogs
  import opened Subscription
  import opened ClientStream
  import opened FeedClient

  /** What one connection has carried: what the subscription handed over, and the notice if it ended in a gap. */
  function OnTheWire(r: Reader): seq<Event> {
    match r.phase
    case Over(Gap(f, o)) => r.handed + [Numbered(f, GapNotice(o))]
    case _ => r.handed
  }

  /** A gapless range is numbered as it is placed. */
  lemma RangeIsNumbered(part: seq<Event>, history: seq<Event>, a: nat, b: nat)
    requires Gapless(history) && a <= b && IsRange(part, history, a, b)
    ensures ConsecutiveFrom(part, a)
    ensures b <= |history| ==> |part| == b - a
  {
    PlacedByNumber(history, a);
    PlacedByNumber(history, b);
  }

  lemma PlacedByNumber(history: seq<Event>, x: nat)
    requires Gapless(history)
    ensures FirstAt(history, x) == if x < |history| then x else |history|
  {
    FirstAtUnique(history, x, if x < |history| then x else |history|);
  }

  /** What has been carried is numbered from the origin on, the notice included. */
  lemma WireIsNumbered(retain: int, from: int, steps: seq<Subscription.Step>)
    requires var s := Exec(retain, from, steps); s.reader.origin.Some? && Gapless(s.log.history)
    ensures var s := Exec(retain, from, steps);
            && ConsecutiveFrom(OnTheWire(s.reader), s.reader.origin.value)
            && ConsecutiveFrom(s.reader.handed, s.reader.origin.value)
            && match s.reader.phase
               case Over(Gap(f, o)) =>
                 s.reader.origin.value + |s.reader.handed| == f < o <= s.log.oldest <= |s.log.history|
               case _ => true
  {
    var s := Exec(retain, from, steps);
    ExecInv(retain, from, steps);
    RefusalsAreRight(retain, from, steps);
    GaplessHead(s.log);
    OldestIsInReach(s.log);
    RangeIsNumbered(s.reader.handed, s.log.history, s.reader.origin.value, s.reader.next);
  }

  lemma OldestIsInReach(l: Log)
    requires Window(l)
    ensures l.oldest <= Head(l)
  {
  }

  /**
   A client that opens at n over a feed, however appends, evictions and its own reading
   interleave, reads all that is sent without a gap if and only if nothing is sent or the
   subscription began at n. That is so for every n but 0, for which it began at the oldest.
   */
  lemma LiveFeedIsReadIff(retain: int, n: nat, steps: seq<Subscription.Step>)
    requires var s := Exec(retain, StartingAt(LastEventIdHeader(n)), steps);
             s.reader.origin.Some? && Gapless(s.log.history)
    ensures var r := Exec(retain, StartingAt(LastEventIdHeader(n)), steps).reader;
            && (ReadUntilError(OnTheWire(r), n) == (OnTheWire(r), EndOfStream)
                <==> OnTheWire(r) == [] || r.origin.value == n)
            && (OnTheWire(r) != [] && r.origin.value != n ==>
                  ReadUntilError(OnTheWire(r), n) == ([], SequenceGap(n, r.origin.value)))
            && (n > 0 ==> r.origin.value == n)
  {
    var from := StartingAt(LastEventIdHeader(n));
    var r := Exec(retain, from, steps).reader;
    WireIsNumbered(retain, from, steps);
    ExecInv(retain, from, steps);
    if r.origin.value == n {
      ConsecutiveIsReadWhole(OnTheWire(r), n);
    } else if OnTheWire(r) != [] {
      BeginsElsewhere(OnTheWire(r), r.origin.value, n);
    } else {
      assert ReadUntilError([], n) == ([], EndOfStream);
    }
  }

  lemma BeginsElsewhere(incoming: seq<Event>, a: nat, n: nat)
    requires |incoming| > 0 && ConsecutiveFrom(incoming, a) && a != n
    ensures ReadUntilError(incoming, n) == ([], SequenceGap(n, a))
  {
  }

  /**
   What the notice does. A client that has read from n up to f takes the notice for event f: no
   gap is reported, the point to resume at moves past f, and f was never delivered. Reopening
   there is read cleanly, so that f is passed over for good, exactly when f alone was missing;
   otherwise the server refuses it.
   */
  lemma NoticeIsTakenForTheMissingEvent(retain: int, n: nat, steps: seq<Subscription.Step>, f: nat, o: nat)
    requires var s := Exec(retain, StartingAt(LastEventIdHeader(n)), steps);
             s.reader.phase == Over(Gap(f, o)) && s.reader.origin == Some(n) && Gapless(s.log.history)
    ensures var s := Exec(retain, StartingAt(LastEventIdHeader(n)), steps);
            && ReadUntilError(OnTheWire(s.reader), n) == (OnTheWire(s.reader), EndOfStream)
            && n + |OnTheWire(s.reader)| == f + 1
            && f < |s.log.history| && s.log.history[f].seqNo == f
            && s.log.history[f] !in s.reader.handed && s.log.history[f] !in s.log.events
            && (ReadsFrom(s.log, f + 1) <==> s.log.oldest == f + 1)
            && (s.log.oldest > f + 1 ==>
                  Open(LastEventIdHeader(f + 1), s.log.oldest, Head(s.log)) == GapRefused(s.log.oldest))
  {
    var s := Exec(retain, StartingAt(LastEventIdHeader(n)), steps);
    WireIsNumbered(retain, StartingAt(LastEventIdHeader(n)), steps);
    LiveFeedIsReadIff(retain, n, steps);
    ExecInv(retain, StartingAt(LastEventIdHeader(n)), steps);
    Missing(s.log, s.reader.handed, n, f);
    ReopenedPast(s.log, f);
  }

  /** An event below the window is in nothing that was handed over before it, and not in the log. */
  lemma Missing(l: Log, handed: seq<Event>, n: nat, f: nat)
    requires Window(l) && Gapless(l.history) && ConsecutiveFrom(handed, n)
    requires n + |handed| == f < l.oldest <= |l.history|
    ensures f < |l.history| && l.history[f].seqNo == f && l.history[f] !in handed && l.history[f] !in l.events
  {
    assert forall i :: 0 <= i < |handed| ==> handed[i].seqNo < f;
    assert forall i :: 0 <= i < |l.events| ==> l.events[i].seqNo >= l.oldest;
  }

  lemma ReopenedPast(l: Log, f: nat)
    requires Window(l) && Gapless(l.history) && f < l.oldest <= |l.history|
    ensures ReadsFrom(l, f + 1) <==> l.oldest == f + 1
    ensures l.oldest > f + 1 ==> Open(LastEventIdHeader(f + 1), l.oldest, Head(l)) == GapRefused(l.oldest)
  {
    GaplessHead(l);
    FeedReadsCleanlyIff(l, f + 1);
  }

  // ------------------------------------------------------------------ an input

  lemma Then(retain: int, from: int, steps: seq<Subscription.Step>, st: Subscription.Step)
    requires Enabled(Exec(retain, from, steps), st)
    ensures Exec(retain, from, steps + [st]) == Subscription.Next(Exec(retain, from, steps), st)
  {
    assert (steps + [st])[..|steps|] == steps;
  }

  /** A feed that retains one event, and has one. */
  ghost predicate HoldsOnly(l: Log, ev: Event) {
    l.retain == 1 && l.events == [ev] && l.oldest == ev.seqNo && !l.finished
  }

  /** The reader takes the one event there is. */
  lemma TakesIt(s: System, ev: Event)
    requires HoldsOnly(s.log, ev) && s.reader == Reader(FROM_OLDEST, None, FROM_OLDEST, Ready, [])
    ensures Subscription.Next(s, TakeLock).reader
            == Reader(FROM_OLDEST, Some(ev.seqNo), ev.seqNo + 1, Calling(ev), [ev])
  {
    FirstAtUnique([ev], ev.seqNo, 0);
    assert [] + [ev] == [ev];
  }

  /**
   Three events over a feed that retains one: the client has the first, gets no gap error,
   and goes on to the third.
   */
  lemma SecondEventIsPassedOver(a: Event, b: Event, c: Event) returns (steps: seq<Subscription.Step>)
    requires a.seqNo == 0 && b.seqNo == 1 && c.seqNo == 2
    ensures var s := Exec(1, FROM_OLDEST, steps);
            && s.log.history == [a, b, c] && s.reader.handed == [a]
            && ReadUntilError(OnTheWire(s.reader), 0) == (OnTheWire(s.reader), EndOfStream)
            && 0 + |OnTheWire(s.reader)| == 2 && ReadsFrom(s.log, 2)
  {
    steps := TakenThenDisplaced(a, b, c);
    Then(1, FROM_OLDEST, steps, CallbackReturns(true));
    steps := steps + [CallbackReturns(true)];
    Then(1, FROM_OLDEST, steps, TakeLock);
    steps := steps + [TakeLock];
    NoticeIsTakenForTheMissingEvent(1, 0, steps, 1, 2);
  }

  lemma TakenThenDisplaced(a: Event, b: Event, c: Event) returns (steps: seq<Subscription.Step>)
    requires a.seqNo == 0 && b.seqNo == 1 && c.seqNo == 2
    ensures var s := Exec(1, FROM_OLDEST, steps);
            && HoldsOnly(s.log, c) && s.log.history == [a, b, c]
            && s.reader == Reader(FROM_OLDEST, Some(0), 1, Calling(a), [a])
  {
    Then(1, FROM_OLDEST, [], Append(a));
    OneEvent(a);
    steps := [] + [Append(a)];
    Then(1, FROM_OLDEST, steps, TakeLock);
    TakesIt(Exec(1, FROM_OLDEST, steps), a);
    steps := steps + [TakeLock];
    Then(1, FROM_OLDEST, steps, Append(b));
    Displaces(Exec(1, FROM_OLDEST, steps).log, a, b);
    steps := steps + [Append(b)];
    Then(1, FROM_OLDEST, steps, Append(c));
    Displaces(Exec(1, FROM_OLDEST, steps).log, b, c);
    steps := steps + [Append(c)];
    assert [a] + [b] + [c] == [a, b, c];
  }

  lemma Displaces(l: Log, a: Event, b: Event)
    requires HoldsOnly(l, a)
    ensures HoldsOnly(Appended(l, b), b) && Appended(l, b).history == l.history + [b]
  {
    assert ([a] + [b])[1..] == [b];
  }
}
