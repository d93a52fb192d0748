/**
 A client of a harness's feed, which keeps a window and not a history: what the server answers
 a request for each number, and which requests are read without a gap.
 */
module FeedClient {
  import opened Wrappers
  import opened Protocol
  import opened EventLogs
  import opened ClientStream

  /** What a server answers a request for a stream before it opens one. */
  datatype Opening = GapRefused(oldest: nat) | AheadRefused(head: nat) | Opened(from: int)

  function Open(header: Option<nat>, oldest: nat, head: nat): Opening {
    if header.None? then Opened(FROM_OLDEST)
    else if header.value + 1 < oldest then GapRefused(oldest)
    else if header.value + 1 > head then AheadRefused(head)
    else Opened(header.value + 1)
  }

  /** What a log as it stands hands a subscription. */
  ghost function ServedNow(l: Log, from: int): seq<Event> {
    l.events[FirstAt(l.events, if from < 0 then l.oldest else from)..]
  }

  /** A client opened at n is given all there is from n on, and told of no gap. */
  ghost predicate ReadsFrom(l: Log, n: nat) {
    var o := Open(LastEventIdHeader(n), l.oldest, Head(l));
    o.Opened? && n <= |l.history| && ReadUntilError(ServedNow(l, o.from), n) == (l.history[n..], EndOfStream)
  }

  /**
   Of a feed as it stands: a client opened at n is given all of it from n on, without a gap, if
   and only if n is still held or next.
   Below that it is refused with the oldest number there is; except that opening at 0 is not
   asking for 0, so it is answered from the oldest, and the client reports a gap.
   */
  lemma FeedReadsCleanlyIff(l: Log, n: nat)
    requires Window(l) && Gapless(l.history)
    ensures ReadsFrom(l, n) <==> l.oldest <= n <= Head(l)
    ensures 0 < n < l.oldest ==> Open(LastEventIdHeader(n), l.oldest, Head(l)) == GapRefused(l.oldest)
    ensures 0 == n < l.oldest ==> ReadUntilError(ServedNow(l, FROM_OLDEST), 0) == ([], SequenceGap(0, l.oldest))
    ensures n > Head(l) ==> Open(LastEventIdHeader(n), l.oldest, Head(l)) == AheadRefused(Head(l))
  {
    if l.oldest <= n <= Head(l) {
      HeldIsRead(l, n);
    } else if n == 0 {
      EvictedAtZero(l);
    }
  }

  lemma HeldIsRead(l: Log, n: nat)
    requires Window(l) && Gapless(l.history) && l.oldest <= n <= Head(l)
    ensures ReadsFrom(l, n)
  {
    GaplessHead(l);
    HeldFromThere(l, n);
    TailIsReadWhole(l.history, n);
    assert Open(LastEventIdHeader(n), l.oldest, Head(l)) == Opened(if n == 0 then FROM_OLDEST else n);
  }

  lemma GaplessHead(l: Log)
    requires Window(l) && Gapless(l.history)
    ensures Head(l) == |l.history|
  {
    HeadIsOnePastNewest(l);
  }

  lemma TailIsReadWhole(history: seq<Event>, n: nat)
    requires Gapless(history) && n <= |history|
    ensures ReadUntilError(history[n..], n) == (history[n..], EndOfStream)
  {
    PieceIsReadWhole(history, n, |history|);
    assert history[n..|history|] == history[n..];
  }

  /** A window without holes serves exactly the history from a number it holds. */
  lemma HeldFromThere(l: Log, n: nat)
    requires Window(l) && Gapless(l.history) && l.oldest <= n <= |l.history|
    ensures ServedNow(l, n) == l.history[n..]
    ensures n == 0 ==> ServedNow(l, FROM_OLDEST) == l.history[n..]
  {
    var d := |l.history| - |l.events|;
    WindowIsTail(l);
    assert d <= n by {
      assert d > 0 ==> l.events[0] == l.history[d];
    }
    assert l.events[n - d..] == l.history[n..];
    WindowIsIncreasing(l);
    PlaceInTail(l, n);
  }

  lemma WindowIsTail(l: Log)
    requires Window(l)
    ensures l.events == l.history[|l.history| - |l.events|..]
  {
  }

  lemma PlaceInTail(l: Log, n: nat)
    requires Window(l) && Gapless(l.history) && |l.history| - |l.events| <= n <= |l.history|
    ensures FirstAt(l.events, n) == n - (|l.history| - |l.events|)
  {
    var d := |l.history| - |l.events|;
    assert forall i :: 0 <= i < |l.events| ==> l.events[i].seqNo == d + i;
    FirstAtUnique(l.events, n, n - d);
  }

  lemma EvictedAtZero(l: Log)
    requires Window(l) && l.oldest > 0
    ensures ReadUntilError(ServedNow(l, FROM_OLDEST), 0) == ([], SequenceGap(0, l.oldest))
  {
    WindowIsIncreasing(l);
    FirstAtUnique(l.events, l.oldest, 0);
    assert ServedNow(l, FROM_OLDEST)[0] == l.events[0];
  }

  ghost function AppendAll(l: Log, events: seq<Event>): Log
    decreases events
  {
    if |events| == 0 then l else Appended(AppendAll(l, events[..|events| - 1]), events[|events| - 1])
  }

  /** Appended to in its own order. */
  ghost predicate InOrder(l: Log, events: seq<Event>)
    decreases events
  {
    |events| > 0 ==>
      && InOrder(l, events[..|events| - 1])
      && events[|events| - 1].seqNo >= Head(AppendAll(l, events[..|events| - 1]))
  }

  lemma {:induction false} OldestOnlyGrows(l: Log, events: seq<Event>)
    requires Window(l) && InOrder(l, events)
    ensures Window(AppendAll(l, events)) && AppendAll(l, events).oldest >= l.oldest
    decreases events
  {
    if |events| > 0 {
      var m, ev := AppendAll(l, events[..|events| - 1]), events[|events| - 1];
      OldestOnlyGrows(l, events[..|events| - 1]);
      AppendKeepsWindow(m, ev);
      AppendNeverLowersOldest(m, ev);
    }
  }

  /**
   A client that began at 0 and reopens wherever it last got to is not helped by waiting: once
   a feed has evicted anything, every later connection at 0 reports a gap before its first
   event, and the point to resume at stays 0.
   */
  lemma EvictedFeedIsNeverReadFromZero(l: Log, events: seq<Event>)
    requires Window(l) && l.oldest > 0 && InOrder(l, events)
    ensures var later := AppendAll(l, events);
            && Open(LastEventIdHeader(0), later.oldest, Head(later)) == Opened(FROM_OLDEST)
            && ReadUntilError(ServedNow(later, FROM_OLDEST), 0) == ([], SequenceGap(0, later.oldest))
  {
    OldestOnlyGrows(l, events);
    EvictedAtZero(AppendAll(l, events));
  }

  /** The smallest such feed: it retains one event and has been given two. */
  lemma FeedThatEvictedItsFirst(a: Event, b: Event)
    requires a.seqNo == 0 && b.seqNo == 1
    ensures var l := Appended(Appended(Empty(1), a), b);
            && Window(l) && Gapless(l.history) && l.oldest == 1 && !ReadsFrom(l, 0)
  {
    OneEvent(a);
    TwoEvents(Appended(Empty(1), a), a, b);
    FeedReadsCleanlyIff(Appended(Appended(Empty(1), a), b), 0);
  }

  lemma TwoEvents(l: Log, a: Event, b: Event)
    requires Window(l) && l.history == l.events == [a] && l.retain == 1 && Head(l) == 1
    requires a.seqNo == 0 && b.seqNo == 1
    ensures var l' := Appended(l, b); Window(l') && l'.history == [a] + [b] && l'.oldest == 1
    ensures Gapless([a] + [b])
  {
    AppendKeepsWindow(l, b);
    assert ([a] + [b])[1] == b;
  }

  lemma OneEvent(a: Event)
    ensures var l := Appended(Empty(1), a);
            Window(l) && l.history == l.events == [a] && l.retain == 1 && l.oldest == 0 && Head(l) == a.seqNo + 1
  {
    EmptyIsWindow(1);
    AppendKeepsWindow(Empty(1), a);
    assert [] + [a] == [a];
  }
}
