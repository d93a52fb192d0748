/** A harness's feed: one numbered stream that many runs publish into, each of which also keeps its own. */
module Feeds {
  import opened Protocol
  import opened EventLogs

  /** A run's event as the feed carries it: renumbered and attributed, its body unchanged. */
  function Stamped(ev: Event, n: nat, taskId: string, sessionId: string): Event {
    Event(n, ev.body, taskId, sessionId)
  }

  /** A run's events as the feed carries them when it holds n already. */
  function Copies(events: seq<Event>, n: nat, taskId: string, sessionId: string): seq<Event> {
    seq(|events|, i requires 0 <= i < |events| => Stamped(events[i], n + i, taskId, sessionId))
  }

  lemma CopiesMore(before: seq<Event>, events: seq<Event>, ev: Event, taskId: string, sessionId: string)
    ensures before + Copies(events, |before|, taskId, sessionId)
            + [Stamped(ev, |before| + |events|, taskId, sessionId)]
            == before + Copies(events + [ev], |before|, taskId, sessionId)
  {
    var n := |before|;
    assert Copies(events + [ev], n, taskId, sessionId)
        == Copies(events, n, taskId, sessionId) + [Stamped(ev, n + |events|, taskId, sessionId)];
  }

  class Feed {
    const log: EventLog
    const numbers: Sequencer

    ghost predicate Valid()
      reads this, log, log.buf, numbers
    {
      log.Valid() && numbers.n == |log.view.history| && Gapless(log.view.history)
    }

    constructor (retain: int)
      ensures Valid() && log.view == Empty(retain) && fresh(log) && fresh(log.buf) && fresh(numbers)
    {
      log := new EventLog(retain);
      numbers := new Sequencer();
    }

    /** Numbering and appending are one step, so the feed stays gapless whoever publishes. */
    method Publish(ev: Event, taskId: string, sessionId: string)
      requires Valid()
      modifies log, log.buf, numbers
      ensures Valid()
      ensures log.view == Appended(old(log.view), Stamped(ev, |old(log.view).history|, taskId, sessionId))
      ensures log.buf == old(log.buf) || fresh(log.buf)
    {
      PublishedNext(log.view, Stamped(ev, numbers.n, taskId, sessionId));
      var out := numbers.Next(ev.body);
      out := out.(responseId := taskId, sessionId := sessionId);
      log.Append(out);
    }

    method Close()
      requires Valid()
      modifies log
      ensures Valid() && log.view == Closed(old(log.view))
    {
      log.Close();
    }
  }

  lemma PublishedNext(l: Log, ev: Event)
    requires Window(l) && Gapless(l.history) && ev.seqNo == |l.history|
    ensures Head(l) == ev.seqNo && Appended(l, ev).history == l.history + [ev] && Gapless(l.history + [ev])
  {
    HeadIsOnePastNewest(l);
  }
}
