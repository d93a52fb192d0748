/**
 The reading side: a client stream that checks every sequence number, and the series of
 connections a client makes when each one may drop at any point.
 */
module ClientStream {
  import opened Wrappers
  import opened Protocol
  import opened EventLogs

  datatype NextError = EndOfStream | SequenceGap(expected: nat, got: nat)

  /** One call of Next: what it returns, what is left of the connection, and the number then expected. */
  datatype Taken = Taken(result: Result<Event, NextError>, left: seq<Event>, next: nat)

  function TakeNext(incoming: seq<Event>, next: nat): Taken {
    if |incoming| == 0 then Taken(Failure(EndOfStream), [], next)
    else if incoming[0].seqNo != next then Taken(Failure(SequenceGap(next, incoming[0].seqNo)), incoming[1..], next)
    else Taken(Success(incoming[0]), incoming[1..], next + 1)
  }

  /** A caller that stops at the first error: what it was given, and the error that stopped it. */
  function ReadUntilError(incoming: seq<Event>, next: nat): (seq<Event>, NextError)
    decreases incoming
  {
    var t := TakeNext(incoming, next);
    match t.result
    case Failure(e) => ([], e)
    case Success(ev) =>
      var (more, e) := ReadUntilError(t.left, t.next);
      ([ev] + more, e)
  }

  /** A caller that ignores every error and keeps asking until the end. */
  function ReadRegardless(incoming: seq<Event>, next: nat): seq<Event>
    decreases incoming
  {
    if |incoming| == 0 then []
    else
      var t := TakeNext(incoming, next);
      (match t.result case Success(ev) => [ev] case Failure(_) => []) + ReadRegardless(t.left, t.next)
  }

  /** Numbered next, next + 1, ... without a break. */
  ghost predicate ConsecutiveFrom(events: seq<Event>, next: nat) {
    forall i :: 0 <= i < |events| ==> events[i].seqNo == next + i
  }

  class Stream {
    var incoming: seq<Event>
    var next: nat
    var resumeFrom: nat

    ghost predicate Valid()
      reads this
    {
      resumeFrom == next
    }

    /** A connection opened at `from`, over which these events arrive before it ends or drops. */
    constructor (incoming: seq<Event>, from: nat)
      ensures Valid() && this.incoming == incoming && next == from
    {
      this.incoming, next, resumeFrom := incoming, from, from;
    }

    method Next() returns (r: Result<Event, NextError>)
      requires Valid()
      modifies this
      ensures Valid() && Taken(r, incoming, next) == TakeNext(old(incoming), old(next))
    {
      if |incoming| == 0 {
        return Failure(EndOfStream);
      }
      var ev := incoming[0];
      incoming := incoming[1..];
      if ev.seqNo != next {
        return Failure(SequenceGap(next, ev.seqNo));
      }
      next := ev.seqNo + 1;
      resumeFrom := next;
      return Success(ev);
    }

    /** Reads until Next returns an error. */
    method ReadOut() returns (got: seq<Event>, e: NextError)
      requires Valid()
      modifies this
      ensures Valid() && (got, e) == ReadUntilError(old(incoming), old(next))
      ensures resumeFrom == old(next) + |got|
    {
      got := [];
      ghost var all := ReadUntilError(incoming, next);
      while true
        invariant Valid() && next == old(next) + |got|
        invariant got + ReadUntilError(incoming, next).0 == all.0
        invariant ReadUntilError(incoming, next).1 == all.1
        decreases |incoming|
      {
        var before := got;
        var r := Next();
        match r {
          case Failure(error) =>
            assert got + [] == got;
            return got, error;
          case Success(ev) =>
            got := got + [ev];
            assert before + ([ev] + ReadUntilError(incoming, next).0) == got + ReadUntilError(incoming, next).0;
        }
      }
    }
  }

  // ------------------------------------------------- whatever the server sends

  /**
   Whatever arrives, a caller is given exactly the part that is consecutively numbered from
   where it asked, and a break in the numbers is reported as the gap it is, never passed over.
   */
  lemma {:induction false} GapIsReportedNotPassedOver(incoming: seq<Event>, next: nat)
    ensures var (got, e) := ReadUntilError(incoming, next);
            && got <= incoming && ConsecutiveFrom(got, next)
            && (|got| == |incoming| <==> e.EndOfStream?)
            && (|got| < |incoming| ==>
                  e == SequenceGap(next + |got|, incoming[|got|].seqNo) && incoming[|got|].seqNo != next + |got|)
    decreases incoming
  {
    var t := TakeNext(incoming, next);
    if t.result.Success? {
      GapIsReportedNotPassedOver(t.left, t.next);
      var (more, _) := ReadUntilError(t.left, t.next);
      var (got, _) := ReadUntilError(incoming, next);
      assert got == [incoming[0]] + more;
      assert incoming == [incoming[0]] + incoming[1..];
      assert forall i :: 0 <= i < |more| ==> more[i] == incoming[1..][i] == incoming[i + 1];
    }
  }

  /** Even a caller that ignores the reported gaps is never handed a later number in place of a missing one. */
  lemma {:induction false} ErrorsIgnoredStillNothingSkipped(incoming: seq<Event>, next: nat)
    ensures ConsecutiveFrom(ReadRegardless(incoming, next), next)
    decreases incoming
  {
    if |incoming| > 0 {
      var t := TakeNext(incoming, next);
      ErrorsIgnoredStillNothingSkipped(t.left, t.next);
    }
  }

  // ------------------------------------------------------ reconnecting for ever

  /** The header a client sends to start at `from`: the last number seen, and none at the beginning. */
  function LastEventIdHeader(from: nat): Option<nat> {
    if from == 0 then None else Some(from - 1)
  }

  /** The position that stands for the front of the window, wherever it is by then. */
  const FROM_OLDEST: int := -1

  /** Where the server starts: one past the number named, and without one at the oldest it holds. */
  function StartingAt(header: Option<nat>): int {
    match header
    case None => FROM_OLDEST
    case Some(last) => last + 1
  }

  /** What a complete log serves a connection that lasts. */
  ghost function Served(history: seq<Event>, header: Option<nat>): seq<Event> {
    history[FirstAt(history, StartingAt(header))..]
  }

  function AtMost(events: seq<Event>, n: nat): seq<Event> {
    if n < |events| then events[..n] else events
  }

  /** One connection after another, each cut off after so many events, each opened where the last left off. */
  ghost function Reconnecting(history: seq<Event>, from: nat, cuts: seq<nat>): (seq<Event>, bool)
    decreases cuts
  {
    if |cuts| == 0 then ([], true)
    else
      var (got, e) := ReadUntilError(AtMost(Served(history, LastEventIdHeader(from)), cuts[0]), from);
      var (more, clean) := Reconnecting(history, from + |got|, cuts[1..]);
      (got + more, e.EndOfStream? && clean)
  }

  function Sum(cuts: seq<nat>): nat {
    if |cuts| == 0 then 0 else cuts[0] + Sum(cuts[1..])
  }

  lemma GaplessIsIncreasing(history: seq<Event>)
    requires Gapless(history)
    ensures Increasing(history)
  {
  }

  /** A header asking for `from` is answered from exactly that event on. */
  lemma ServedFromThere(history: seq<Event>, from: nat)
    requires Gapless(history) && from <= |history|
    ensures Served(history, LastEventIdHeader(from)) == history[from..]
  {
    GaplessIsIncreasing(history);
    FirstAtUnique(history, StartingAt(LastEventIdHeader(from)), from);
  }

  lemma {:induction false} ConsecutiveIsReadWhole(incoming: seq<Event>, next: nat)
    requires ConsecutiveFrom(incoming, next)
    ensures ReadUntilError(incoming, next) == (incoming, EndOfStream)
    decreases incoming
  {
    if |incoming| > 0 {
      var rest := incoming[1..];
      assert forall i :: 0 <= i < |rest| ==> rest[i] == incoming[i + 1];
      ConsecutiveIsReadWhole(rest, next + 1);
      assert [incoming[0]] + rest == incoming;
    }
  }

  /** How far into a history so many more events reach. */
  function Reach(history: seq<Event>, from: nat, more: nat): (end: nat)
    requires from <= |history|
    ensures from <= end <= |history|
  {
    if from + more < |history| then from + more else |history|
  }

  /**
   Any series of connections over a complete gapless log, each dropped at an arbitrary point
   and reopened where the stream says to resume, gives the client the log from its beginning,
   every event exactly once and in order, with no gap reported; all of it once the pieces are
   long enough together.
   */
  lemma {:induction false} ReconnectingReadsEverythingOnce(history: seq<Event>, from: nat, cuts: seq<nat>)
    requires Gapless(history) && from <= |history|
    ensures Reconnecting(history, from, cuts) == (history[from..Reach(history, from, Sum(cuts))], true)
    decreases cuts
  {
    if |cuts| == 0 {
      assert history[from..Reach(history, from, 0)] == [];
    } else {
      var to := Reach(history, from, cuts[0]);
      OneConnection(history, from, cuts);
      ReconnectingReadsEverythingOnce(history, to, cuts[1..]);
      assert Reach(history, to, Sum(cuts[1..])) == Reach(history, from, Sum(cuts));
      Meet(history, from, to, Reach(history, from, Sum(cuts)));
    }
  }

  lemma Meet(history: seq<Event>, a: nat, b: nat, c: nat)
    requires a <= b <= c <= |history|
    ensures history[a..b] + history[b..c] == history[a..c]
  {
  }

  /** The first connection is served from where it asked, and all that arrives is accepted. */
  lemma OneConnection(history: seq<Event>, from: nat, cuts: seq<nat>)
    requires Gapless(history) && from <= |history| && |cuts| > 0
    ensures var to := Reach(history, from, cuts[0]);
            var (more, clean) := Reconnecting(history, to, cuts[1..]);
            Reconnecting(history, from, cuts) == (history[from..to] + more, clean)
  {
    ServedPiece(history, from, cuts[0]);
    PieceIsReadWhole(history, from, Reach(history, from, cuts[0]));
  }

  lemma ServedPiece(history: seq<Event>, from: nat, cut: nat)
    requires Gapless(history) && from <= |history|
    ensures AtMost(Served(history, LastEventIdHeader(from)), cut) == history[from..Reach(history, from, cut)]
  {
    ServedFromThere(history, from);
  }

  lemma PieceIsReadWhole(history: seq<Event>, from: nat, to: nat)
    requires Gapless(history) && from <= to <= |history|
    ensures ReadUntilError(history[from..to], from) == (history[from..to], EndOfStream)
  {
    var piece := history[from..to];
    assert forall i :: 0 <= i < |piece| ==> piece[i] == history[from + i];
    ConsecutiveIsReadWhole(piece, from);
  }
}
