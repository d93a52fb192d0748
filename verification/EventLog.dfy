/**
 A retained event stream: the value it stands for, and the class that keeps it in one
 buffer that is compacted in place.
 */
module EventLogs {
  import opened Protocol

  // ---------------------------------------------------------------- the value

  /**
   A log's state. `history` is every event ever appended; `events` is the window still
   held. A channel is named by its allocation number: `notify` is the open one, `closed`
   those already closed.
   */
  datatype Log = Log(
    history: seq<Event>,
    events: seq<Event>,
    oldest: nat,
    retain: int,
    finished: bool,
    notify: nat,
    closed: set<nat>)

  function Empty(retain: int): Log {
    Log([], [], 0, retain, false, 0, {})
  }

  predicate Overfull(events: seq<Event>, retain: int) {
    retain > 0 && |events| > retain + retain / 4
  }

  function Evicted(l: Log): Log {
    if !Overfull(l.events, l.retain) then l
    else
      var drop := |l.events| - l.retain;
      l.(oldest := l.events[drop].seqNo, events := l.events[drop..])
  }

  /** Closing the current channel and replacing it wakes every reader that holds it. */
  function Woken(l: Log): Log {
    l.(closed := l.closed + {l.notify}, notify := l.notify + 1)
  }

  function Appended(l: Log, ev: Event): Log {
    Woken(Evicted(l.(history := l.history + [ev], events := l.events + [ev])))
  }

  function Closed(l: Log): Log {
    Woken(l.(finished := true))
  }

  /** One past the newest number the log holds. */
  function Head(l: Log): nat {
    if |l.events| > 0 then l.events[|l.events| - 1].seqNo + 1 else l.oldest
  }

  /** Everything before position r is numbered below x, and the event at r is not. */
  predicate SplitsAt(events: seq<Event>, x: int, r: nat) {
    && r <= |events|
    && (forall i :: 0 <= i < r ==> events[i].seqNo < x)
    && (r < |events| ==> events[r].seqNo >= x)
  }

  lemma {:induction false} SplitExists(events: seq<Event>, x: int) returns (r: nat)
    ensures SplitsAt(events, x, r)
  {
    r := 0;
    while r < |events| && events[r].seqNo < x
      invariant r <= |events|
      invariant forall i :: 0 <= i < r ==> events[i].seqNo < x
    {
      r := r + 1;
    }
  }

  /** The position of the first event numbered x or later. */
  ghost function FirstAt(events: seq<Event>, x: int): (r: nat)
    ensures SplitsAt(events, x, r)
  {
    assert exists r: nat :: SplitsAt(events, x, r) by {
      var r := SplitExists(events, x);
    }
    var r: nat :| SplitsAt(events, x, r);
    r
  }

  lemma FirstAtUnique(events: seq<Event>, x: int, r: nat)
    requires Increasing(events) && r <= |events|
    requires r > 0 ==> events[r - 1].seqNo < x
    requires r < |events| ==> events[r].seqNo >= x
    ensures r == FirstAt(events, x)
  {
    assert forall i :: 0 <= i < r ==> events[i].seqNo <= events[r - 1].seqNo;
  }

  /** What is held is a suffix of everything appended, split from what was dropped at `oldest`. */
  ghost predicate Split(history: seq<Event>, events: seq<Event>, oldest: nat) {
    && |events| <= |history|
    && (forall i :: 0 <= i < |events| ==> events[i] == history[|history| - |events| + i])
    && (forall i :: 0 <= i < |history| - |events| ==> history[i].seqNo < oldest)
    && (forall i :: 0 <= i < |events| ==> events[i].seqNo >= oldest)
    && (|history| > 0 ==> |events| > 0)
    && (if |events| == |history| then oldest == 0 else events[0].seqNo == oldest)
  }

  /** Everything is held while it fits; then never fewer than `retain`, never a quarter more. */
  ghost predicate Sized(total: nat, held: nat, retain: int) {
    && (retain <= 0 ==> held == total)
    && (retain > 0 ==> (if total < retain then total else retain) <= held <= retain + retain / 4)
  }

  /** The window law; every channel but the current one is closed. */
  ghost predicate Window(l: Log) {
    && Increasing(l.history)
    && Split(l.history, l.events, l.oldest)
    && Sized(|l.history|, |l.events|, l.retain)
    && (forall c: nat :: c in l.closed <==> c < l.notify)
  }

  lemma EmptyIsWindow(retain: int)
    ensures Window(Empty(retain))
  {
  }

  lemma WindowIsIncreasing(l: Log)
    requires Window(l)
    ensures Increasing(l.events)
  {
    var d := |l.history| - |l.events|;
    forall i, j | 0 <= i < j < |l.events| ensures l.events[i].seqNo < l.events[j].seqNo {
      assert l.events[i] == l.history[d + i] && l.events[j] == l.history[d + j];
    }
  }

  /** `Head` is one past the newest number ever appended. */
  lemma HeadIsOnePastNewest(l: Log)
    requires Window(l)
    ensures Head(l) == if |l.history| > 0 then l.history[|l.history| - 1].seqNo + 1 else 0
    ensures forall i :: 0 <= i < |l.history| ==> l.history[i].seqNo < Head(l)
  {
    if |l.history| > 0 {
      assert l.events[|l.events| - 1] == l.history[|l.history| - 1];
    }
  }

  lemma EvictKeepsSplit(history: seq<Event>, events: seq<Event>, oldest: nat, drop: nat)
    requires Increasing(history) && Split(history, events, oldest)
    requires 0 < drop < |events|
    ensures Split(history, events[drop..], events[drop].seqNo)
  {
    var d := |history| - |events|;
    assert events[drop] == history[d + drop];
    forall i | 0 <= i < |events| - drop ensures events[drop..][i].seqNo >= events[drop].seqNo {
      assert events[drop..][i] == history[d + drop + i];
    }
  }

  lemma AppendKeepsIncreasing(l: Log, ev: Event)
    requires Window(l) && ev.seqNo >= Head(l)
    ensures Increasing(l.history + [ev])
  {
    HeadIsOnePastNewest(l);
  }

  lemma AppendKeepsSplit(history: seq<Event>, events: seq<Event>, oldest: nat, ev: Event)
    requires Split(history, events, oldest) && ev.seqNo >= oldest
    requires |history| == 0 ==> oldest == 0
    ensures Split(history + [ev], events + [ev], oldest)
  {
    assert |events| > 0 ==> (events + [ev])[0] == events[0];
  }

  lemma WakeKeepsWindow(l: Log)
    requires Window(l)
    ensures Window(Woken(l)) && Head(Woken(l)) == Head(l)
  {
  }

  lemma EvictKeepsSize(l: Log)
    requires |l.history| > 0 && |l.events| > 0 && Sized(|l.history| - 1, |l.events| - 1, l.retain)
    ensures Sized(|l.history|, |Evicted(l).events|, l.retain)
  {
  }

  lemma EvictedIsSplit(l: Log)
    requires Increasing(l.history) && Split(l.history, l.events, l.oldest)
    ensures Split(l.history, Evicted(l).events, Evicted(l).oldest)
  {
    if Overfull(l.events, l.retain) {
      EvictKeepsSplit(l.history, l.events, l.oldest, |l.events| - l.retain);
    }
  }

  lemma HeadOfSplit(l: Log)
    requires Split(l.history, l.events, l.oldest) && |l.history| > 0
    ensures Head(l) == l.history[|l.history| - 1].seqNo + 1
  {
    assert l.events[|l.events| - 1] == l.history[|l.history| - 1];
  }

  lemma EvictMakesWindow(l: Log)
    requires Increasing(l.history) && Split(l.history, l.events, l.oldest)
    requires forall c: nat :: c in l.closed <==> c < l.notify
    requires |l.history| > 0 && Sized(|l.history| - 1, |l.events| - 1, l.retain)
    ensures Window(Evicted(l)) && Head(Evicted(l)) == Head(l)
  {
    EvictKeepsSize(l);
    EvictedIsSplit(l);
    HeadOfSplit(l);
    HeadOfSplit(Evicted(l));
  }

  lemma AppendKeepsWindow(l: Log, ev: Event)
    requires Window(l)
    requires ev.seqNo >= Head(l)
    ensures Window(Appended(l, ev))
    ensures Head(Appended(l, ev)) == ev.seqNo + 1
  {
    var grown := l.(history := l.history + [ev], events := l.events + [ev]);
    assert ev.seqNo >= l.oldest by {
      assert |l.events| > 0 ==> l.events[|l.events| - 1].seqNo >= l.oldest;
    }
    AppendKeepsIncreasing(l, ev);
    AppendKeepsSplit(l.history, l.events, l.oldest, ev);
    EvictMakesWindow(grown);
    WakeKeepsWindow(Evicted(grown));
  }

  lemma AppendNeverLowersOldest(l: Log, ev: Event)
    requires Window(l) && ev.seqNo >= Head(l)
    ensures Appended(l, ev).oldest >= l.oldest
  {
    assert forall i :: 0 <= i < |l.events| ==> l.events[i].seqNo >= l.oldest;
  }

  lemma CloseKeepsWindow(l: Log)
    requires Window(l)
    ensures Window(Closed(l)) && Head(Closed(l)) == Head(l)
  {
  }

  /** Exactly the recent events are held, whatever was compacted away in between. */
  lemma WindowHoldsExactlyTheRecent(l: Log, k: nat)
    requires Window(l) && k < |l.history|
    ensures l.history[k] in l.events <==> l.history[k].seqNo >= l.oldest
    ensures l.retain <= 0 || |l.history| - k <= l.retain ==> l.history[k] in l.events
  {
    var d := |l.history| - |l.events|;
    if k >= d {
      assert l.events[k - d] == l.history[k];
    }
  }

  /**
   The number of events held after `total` appends: one more each time, until that is more
   than a quarter over `retain`, and then `retain` again.
   */
  ghost function HeldOf(total: nat, retain: int): nat {
    if total == 0 then 0
    else
      var more := HeldOf(total - 1, retain) + 1;
      if retain > 0 && more > retain + retain / 4 then retain else more
  }

  lemma AppendHoldsExactly(l: Log, ev: Event)
    requires |l.events| == HeldOf(|l.history|, l.retain)
    ensures var a := Appended(l, ev); |a.events| == HeldOf(|a.history|, a.retain)
  {
  }

  // ------------------------------------------- one pass of a reader, lock held

  /** What a reader that takes the lock at position `next` is told before releasing it. */
  datatype PassResult =
    | Refused(from: nat, oldest: nat)
    | Handed(ev: Event, after: nat)
    | Finished(at: nat)
    | Wait(at: nat, channel: nat)

  ghost function Pass(l: Log, from: int): PassResult {
    var next: nat := if from < 0 then l.oldest else from;
    if l.oldest > next then Refused(next, l.oldest)
    else
      var i := FirstAt(l.events, next);
      if i < |l.events| then Handed(l.events[i], l.events[i].seqNo + 1)
      else if l.finished then Finished(next)
      else Wait(next, l.notify)
  }

  // ------------------------------------------------------------------ the class

  /** Moves `keep` entries down by `drop` places, in place. */
  method ShiftDown(buf: array<Event>, drop: nat, keep: nat)
    requires drop + keep <= buf.Length
    modifies buf
    ensures forall k :: 0 <= k < keep ==> buf[k] == old(buf[..])[drop..][k]
  {
    ghost var was, moved := buf[..], buf[drop..];
    for i := 0 to keep
      invariant forall k :: 0 <= k < i ==> buf[k] == moved[k]
      invariant forall k :: i <= k < buf.Length ==> buf[k] == was[k]
    {
      assert moved[i] == was[drop + i];
      buf[i] := buf[drop + i];
    }
    assert moved == was[drop..];
  }

  /** Clears the entries from one place up to another, so that nothing is held on to. */
  method Blank(buf: array<Event>, from: nat, to: nat)
    requires from <= to <= buf.Length
    modifies buf
    ensures forall k :: from <= k < to ==> buf[k] == BLANK
    ensures forall k :: 0 <= k < from || to <= k < buf.Length ==> buf[k] == old(buf[k])
  {
    for i := from to to
      invariant forall k :: from <= k < i ==> buf[k] == BLANK
      invariant forall k :: 0 <= k < from || i <= k < buf.Length ==> buf[k] == old(buf[k])
    {
      buf[i] := BLANK;
    }
  }

  const BLANK: Event := Event(0, ContentPartAdded("", 0, 0), "", "")

  class EventLog {
    /** The value this object stands for. */
    ghost var view: Log

    var buf: array<Event>
    var len: nat
    var oldest: nat
    var retain: int
    var finished: bool
    var notify: nat
    var closed: set<nat>

    ghost predicate Stored()
      reads this, buf
    {
      && len == |view.events| <= buf.Length
      && (forall i :: 0 <= i < len ==> buf[i] == view.events[i])
      && oldest == view.oldest && retain == view.retain && finished == view.finished
      && notify == view.notify && closed == view.closed
    }

    ghost predicate Valid()
      reads this, buf
    {
      Stored() && Window(view)
    }

    constructor (retain: int)
      ensures Valid() && view == Empty(retain) && fresh(buf)
    {
      view := Empty(retain);
      buf := new Event[0];
      len, oldest := 0, 0;
      this.retain := retain;
      finished := false;
      notify, closed := 0, {};
    }

    method Append(ev: Event)
      requires Valid() && ev.seqNo >= Head(view)
      modifies this, buf
      ensures Valid() && view == Appended(old(view), ev)
      ensures buf == old(buf) || fresh(buf)
    {
      AppendKeepsWindow(view, ev);
      Push(ev);
      Evict();
      Wake();
    }

    /** Stores one more event, in a larger buffer when this one is full. */
    method Push(ev: Event)
      requires Stored()
      modifies this`buf, this`len, this`view, buf
      ensures Stored() && (buf == old(buf) || fresh(buf))
      ensures view == old(view).(history := old(view).history + [ev], events := old(view).events + [ev])
    {
      if len == buf.Length {
        Grow();
      }
      buf[len] := ev;
      len := len + 1;
      view := view.(history := view.history + [ev], events := view.events + [ev]);
    }

    /** Moves the events into a larger buffer. */
    method Grow()
      requires Stored()
      modifies this`buf
      ensures Stored() && fresh(buf) && buf.Length > len
    {
      var held := buf;
      var larger := new Event[2 * len + 1](_ => BLANK);
      var i := 0;
      while i < len
        invariant i <= len
        invariant forall k :: 0 <= k < i ==> larger[k] == view.events[k]
        modifies larger
      {
        larger[i] := held[i];
        i := i + 1;
      }
      buf := larger;
    }

    /** Compaction: beyond a quarter over `retain`, only the newest `retain` events are kept. */
    method Evict()
      requires Stored()
      modifies this`len, this`oldest, this`view, buf
      ensures Stored() && view == Evicted(old(view))
    {
      if retain <= 0 || len <= retain + retain / 4 {
        return;
      }
      var keep: nat, drop: nat := retain, len - retain;
      oldest := buf[drop].seqNo;
      ShiftDown(buf, drop, keep);
      Blank(buf, keep, len);
      len := keep;
      view := view.(oldest := view.events[drop].seqNo, events := view.events[drop..]);
    }

    /** Closes the current channel and opens the next. */
    method Wake()
      requires Stored()
      modifies this`notify, this`closed, this`view
      ensures Stored() && view == Woken(old(view))
    {
      closed := closed + {notify};
      notify := notify + 1;
      view := Woken(view);
    }

    method Close()
      requires Valid()
      modifies this`finished, this`notify, this`closed, this`view
      ensures Valid() && view == Closed(old(view))
    {
      CloseKeepsWindow(view);
      finished := true;
      view := view.(finished := true);
      Wake();
    }

    method HeadNumber() returns (h: nat)
      requires Valid()
      ensures h == if |view.history| > 0 then view.history[|view.history| - 1].seqNo + 1 else 0
    {
      HeadIsOnePastNewest(view);
      if len > 0 {
        return buf[len - 1].seqNo + 1;
      }
      return oldest;
    }

    /** Binary search for the first retained event numbered x or later. */
    method IndexOf(x: int) returns (i: nat)
      requires Valid()
      ensures i == FirstAt(view.events, x)
    {
      WindowIsIncreasing(view);
      var j := len;
      i := 0;
      while i < j
        invariant i <= j <= len
        invariant i > 0 ==> view.events[i - 1].seqNo < x
        invariant j < len ==> view.events[j].seqNo >= x
      {
        var h := (i + j) / 2;
        if buf[h].seqNo >= x {
          j := h;
        } else {
          i := h + 1;
        }
      }
      FirstAtUnique(view.events, x, i);
    }

    /** The part of subscribe that runs with the lock held, once. */
    method TakePass(from: int) returns (r: PassResult)
      requires Valid()
      ensures r == Pass(view, from)
    {
      var next := from;
      if next < 0 {
        next := oldest;
      }
      if oldest > next {
        return Refused(next, oldest);
      }
      var i := IndexOf(next);
      if i < len {
        var ev := buf[i];
        return Handed(ev, ev.seqNo + 1);
      }
      if finished {
        return Finished(next);
      }
      return Wait(next, notify);
    }
  }
}
