/**
 The decoder against the interpretation rules of the WHATWG HTML Living Standard, section
 9.2.6, written out over the lines of a whole input.
 */
module SseStandard {
  import opened Sse

  datatype Message = Message(data: Bytes, eventType: Bytes, lastEventId: Bytes)

  /** The standard's three buffers, its last event ID string, and what has been dispatched. */
  datatype Buffers = Buffers(data: Bytes, eventType: Bytes, idBuffer: Bytes, lastEventId: Bytes, sent: seq<Message>)

  function Start(): Buffers {
    Buffers([], [], [], [], [])
  }

  function DispatchEvent(b: Buffers): Buffers {
    var c := b.(lastEventId := b.idBuffer);
    if c.data == [] then c.(eventType := [])
    else
      var data := if c.data[|c.data| - 1] == LF then c.data[..|c.data| - 1] else c.data;
      c.(sent := c.sent + [Message(data, c.eventType, c.lastEventId)], data := [], eventType := [])
  }

  function ProcessField(b: Buffers, field: Bytes, value: Bytes): Buffers {
    if field == EVENT then b.(eventType := value)
    else if field == DATA then b.(data := b.data + value + [LF])
    else if field == ID then if 0 in value then b else b.(idBuffer := value)
    else b
  }

  function ProcessLine(b: Buffers, line: Bytes): Buffers {
    if line == [] then DispatchEvent(b)
    else if line[0] == COLON then b
    else if COLON !in line then ProcessField(b, line, [])
    else
      var i := ColonAt(line);
      if i == |line| then b
      else
        var value := line[i + 1..];
        ProcessField(b, line[..i], if value != [] && value[0] == SPACE then value[1..] else value)
  }

  function ProcessLines(b: Buffers, lines: seq<Bytes>): Buffers
    decreases lines
  {
    if |lines| == 0 then b else ProcessLines(ProcessLine(b, lines[0]), lines[1..])
  }

  function FramesOf(sent: seq<Message>): seq<Frame> {
    seq(|sent|, i requires 0 <= i < |sent| => Frame(sent[i].data, sent[i].eventType, sent[i].lastEventId))
  }

  /** The one frame the standard discards and the decoder delivers: data the input ends on. */
  function Unfinished(b: Buffers): seq<Frame> {
    if b.data == [] then [] else [Frame(b.data[..|b.data| - 1], b.eventType, b.idBuffer)]
  }

  // -------------------------------------------------------------- the agreement

  ghost predicate Matches(a: Acc, b: Buffers) {
    && b.data == (if a.haveData then a.data + [LF] else [])
    && (!a.haveData ==> a.data == [])
    && a.eventName == b.eventType
    && a.lastEventId == b.idBuffer
  }

  /** The frames still to come from a half-read frame. */
  function DecodeFrom(s: Bytes, a: Acc): (seq<Frame>, Bytes) {
    var o := NextFrame(s, a);
    if o.frame.None? then ([], o.lastEventId)
    else
      var (frames, last) := DecodeAll(o.rest, o.lastEventId);
      ([o.frame.value] + frames, last)
  }

  lemma LineMatches(a: Acc, b: Buffers, line: Bytes)
    requires Matches(a, b) && line != [] && line[0] != COLON
    ensures Matches(TakeField(a, line), ProcessLine(b, line))
    ensures ProcessLine(b, line).sent == b.sent
  {
    var i := ColonAt(line);
    if i == |line| {
      assert COLON !in line;
    } else {
      assert COLON in line;
    }
    var (field, value) := SplitField(line);
    assert ProcessLine(b, line) == ProcessField(b, field, value);
    if field == DATA && !a.haveData {
      assert a.data + value == value && [] + value == value;
    }
  }

  lemma DispatchMatches(a: Acc, b: Buffers)
    requires Matches(a, b)
    ensures var c := DispatchEvent(b);
            && Matches(Fresh(a.lastEventId), c)
            && FramesOf(c.sent) == FramesOf(b.sent) + (if a.haveData then [Dispatch(a)] else [])
  {
    if a.haveData {
      assert b.data[..|b.data| - 1] == a.data;
    }
  }

  /** The decoder's answer, one line at a time. */
  lemma DecodeOneLine(s: Bytes, a: Acc)
    requires |s| > 0 && (!a.haveData ==> a.data == [])
    ensures var line, rest := FirstLine(s), s[AfterLine(s)..];
            DecodeFrom(s, a) ==
              if line == [] then
                var (frames, last) := DecodeFrom(rest, Fresh(a.lastEventId));
                ((if a.haveData then [Dispatch(a)] else []) + frames, last)
              else if line[0] == COLON then DecodeFrom(rest, a)
              else DecodeFrom(rest, TakeField(a, line))
  {
    var line, rest := FirstLine(s), s[AfterLine(s)..];
    if line == [] {
      assert DecodeFrom(rest, Fresh(a.lastEventId)) == DecodeAll(rest, a.lastEventId);
      assert [] + DecodeFrom(rest, Fresh(a.lastEventId)).0 == DecodeFrom(rest, Fresh(a.lastEventId)).0;
      if !a.haveData {
        assert a.(eventName := []) == Fresh(a.lastEventId);
      }
    }
  }

  lemma ProcessOneLine(s: Bytes, b: Buffers)
    requires |s| > 0
    ensures ProcessLines(b, Lines(s)) == ProcessLines(ProcessLine(b, FirstLine(s)), Lines(s[AfterLine(s)..]))
  {
    assert Lines(s)[0] == FirstLine(s) && Lines(s)[1..] == Lines(s[AfterLine(s)..]);
  }

  lemma {:induction false} DecodingAgrees(s: Bytes, a: Acc, b: Buffers)
    requires Matches(a, b)
    ensures var e := ProcessLines(b, Lines(s));
            && FramesOf(e.sent) + Unfinished(e) == FramesOf(b.sent) + DecodeFrom(s, a).0
            && e.idBuffer == DecodeFrom(s, a).1
    decreases |s|
  {
    if |s| == 0 {
      assert a.haveData ==> b.data[..|b.data| - 1] == a.data;
    } else {
      var line, rest := FirstLine(s), s[AfterLine(s)..];
      var c := ProcessLine(b, line);
      DecodeOneLine(s, a);
      ProcessOneLine(s, b);
      if line == [] {
        DispatchMatches(a, b);
        DecodingAgrees(rest, Fresh(a.lastEventId), c);
      } else if line[0] == COLON {
        DecodingAgrees(rest, a, c);
      } else {
        LineMatches(a, b, line);
        DecodingAgrees(rest, TakeField(a, line), c);
      }
    }
  }

  /**
   Line by line, the decoder delivers exactly the messages the rules dispatch, with the same
   last event id each, and then the unfinished frame if the input ends on one; the id it
   reports at the end is the id buffer, which takes effect at its line.
   */
  lemma FollowsTheLineRules(s: Bytes)
    ensures DecodeAll(s, []) == Interpreted(s)
  {
    DecodingAgrees(s, Fresh([]), Start());
    assert DecodeAll(s, []) == DecodeFrom(s, Fresh([]));
    var e := ProcessLines(Start(), Lines(s));
    assert FramesOf(Start().sent) + DecodeAll(s, []).0 == DecodeAll(s, []).0;
  }

  /** The frames the line rules make of an input, the unfinished one included, and the id buffer at its end. */
  function Interpreted(s: Bytes): (seq<Frame>, Bytes) {
    var b := ProcessLines(Start(), Lines(s));
    (FramesOf(b.sent) + Unfinished(b), b.idBuffer)
  }
}
