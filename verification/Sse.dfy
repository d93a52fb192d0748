/**
 The Server-Sent Events decoder: an incremental line splitter over whatever pieces the reader
 delivers, and the frames put together from its lines.
 */
module Sse {
  import opened Wrappers

  newtype Byte = x: int | 0 <= x < 256

  type Bytes = seq<Byte>

  const LF: Byte := 10
  const CR: Byte := 13
  const SPACE: Byte := 32
  const COLON: Byte := 58
  const DATA: Bytes := [100, 97, 116, 97]
  const EVENT: Bytes := [101, 118, 101, 110, 116]
  const ID: Bytes := [105, 100]

  // ---------------------------------------------------- lines of a whole input

  predicate IsTerminator(b: Byte) {
    b == LF || b == CR
  }

  /** Where the first line stops: at its terminator, or at the end of the input. */
  function LineEnd(s: Bytes): (i: nat)
    ensures i <= |s|
    ensures forall j :: 0 <= j < i ==> !IsTerminator(s[j])
    ensures i < |s| ==> IsTerminator(s[i])
  {
    if |s| == 0 || IsTerminator(s[0]) then 0 else 1 + LineEnd(s[1..])
  }

  lemma LineEndIs(s: Bytes, i: nat)
    requires i <= |s| && (i < |s| ==> IsTerminator(s[i]))
    requires forall j :: 0 <= j < i ==> !IsTerminator(s[j])
    ensures LineEnd(s) == i
  {
  }

  /** CRLF is one terminator; LF and a CR on its own are one each. */
  function AfterLine(s: Bytes): (n: nat)
    ensures n <= |s| && (|s| > 0 ==> n > 0)
  {
    var i := LineEnd(s);
    if i == |s| then i
    else if s[i] == CR && i + 1 < |s| && s[i + 1] == LF then i + 2
    else i + 1
  }

  function FirstLine(s: Bytes): Bytes {
    s[..LineEnd(s)]
  }

  function Lines(s: Bytes): seq<Bytes> {
    if |s| == 0 then [] else [FirstLine(s)] + Lines(s[AfterLine(s)..])
  }

  // ------------------------------------------------------- the splitting function

  datatype Split = Split(advance: nat, token: Option<Bytes>)

  /** What can be said of a line from the bytes at hand; at end of input a bare tail is a line. */
  function SplitOf(data: Bytes, atEof: bool): Split {
    var i := LineEnd(data);
    if |data| == 0 then Split(0, None)
    else if i == |data| then if atEof then Split(i, Some(data)) else Split(0, None)
    else if data[i] == CR && i + 1 == |data| && !atEof then Split(0, None)
    else Split(AfterLine(data), Some(data[..i]))
  }

  method ScanEventLines(data: Bytes, atEof: bool) returns (advance: nat, token: Option<Bytes>)
    ensures Split(advance, token) == SplitOf(data, atEof)
    ensures advance <= |data|
  {
    if atEof && |data| == 0 {
      return 0, None;
    }
    var i := 0;
    while i < |data|
      invariant i <= |data|
      invariant forall j :: 0 <= j < i ==> !IsTerminator(data[j])
    {
      if data[i] == LF {
        LineEndIs(data, i);
        return i + 1, Some(data[..i]);
      }
      if data[i] == CR {
        LineEndIs(data, i);
        if i + 1 < |data| {
          if data[i + 1] == LF {
            return i + 2, Some(data[..i]);
          }
          return i + 1, Some(data[..i]);
        }
        if atEof {
          return i + 1, Some(data[..i]);
        }
        return 0, None;
      }
      i := i + 1;
    }
    LineEndIs(data, |data|);
    if atEof {
      return |data|, Some(data);
    }
    return 0, None;
  }

  /** A line that can be told from the bytes at hand is the line of the whole input, whatever follows. */
  lemma TokenIsFirstLine(data: Bytes, rest: Bytes, atEof: bool)
    requires atEof ==> rest == []
    requires SplitOf(data, atEof).token.Some?
    ensures var sp := SplitOf(data, atEof);
            && |data| > 0
            && sp.token == Some(FirstLine(data + rest))
            && sp.advance == AfterLine(data + rest) <= |data|
            && (data + rest)[AfterLine(data + rest)..] == data[sp.advance..] + rest
  {
    var i := LineEnd(data);
    var s := data + rest;
    if i < |data| {
      LineEndIs(s, i);
      assert s[..i] == data[..i];
    } else {
      assert s == data;
    }
  }

  // ------------------------------------------------------------------ the frames

  /** What one dispatch carries: its payload, its `event:` name, and the last id as it then stood. */
  datatype Frame = Frame(data: Bytes, eventName: Bytes, lastEventId: Bytes)

  datatype Acc = Acc(data: Bytes, haveData: bool, eventName: Bytes, lastEventId: Bytes)

  function Fresh(lastEventId: Bytes): Acc {
    Acc([], false, [], lastEventId)
  }

  function ColonAt(line: Bytes): (i: nat)
    ensures i <= |line|
    ensures i < |line| ==> line[i] == COLON
    ensures forall j :: 0 <= j < i ==> line[j] != COLON
  {
    if |line| == 0 || line[0] == COLON then 0 else 1 + ColonAt(line[1..])
  }

  lemma ColonAtIs(line: Bytes, i: nat)
    requires i <= |line| && (i < |line| ==> line[i] == COLON)
    requires forall j :: 0 <= j < i ==> line[j] != COLON
    ensures ColonAt(line) == i
  {
  }

  /** Field name and value, the value without the one space that may lead it. */
  function SplitField(line: Bytes): (Bytes, Bytes) {
    var i := ColonAt(line);
    if i == |line| then (line, [])
    else
      var value := line[i + 1..];
      (line[..i], if |value| > 0 && value[0] == SPACE then value[1..] else value)
  }

  /** A line that is neither blank nor a comment. */
  function TakeField(a: Acc, line: Bytes): Acc {
    var (field, value) := SplitField(line);
    if field == DATA then a.(data := (if a.haveData then a.data + [LF] else a.data) + value, haveData := true)
    else if field == EVENT then a.(eventName := value)
    else if field == ID && 0 !in value then a.(lastEventId := value)
    else a
  }

  function Dispatch(a: Acc): Frame {
    Frame(a.data, a.eventName, a.lastEventId)
  }

  /** What one call of Next makes of the input left: a frame or the end, what is left then, and the last id. */
  datatype Outcome = Outcome(frame: Option<Frame>, rest: Bytes, lastEventId: Bytes)

  function NextFrame(s: Bytes, a: Acc): (o: Outcome)
    ensures |o.rest| <= |s|
    ensures o.frame.Some? && !a.haveData ==> |o.rest| < |s|
    decreases |s|
  {
    if |s| == 0 then Outcome(if a.haveData then Some(Dispatch(a)) else None, [], a.lastEventId)
    else
      var line, rest := FirstLine(s), s[AfterLine(s)..];
      if |line| == 0 then
        if a.haveData then Outcome(Some(Dispatch(a)), rest, a.lastEventId)
        else NextFrame(rest, a.(eventName := []))
      else if line[0] == COLON then NextFrame(rest, a)
      else NextFrame(rest, TakeField(a, line))
  }

  /** Every frame of a whole input, and the last id once it is read to the end. */
  function DecodeAll(s: Bytes, lastEventId: Bytes): (seq<Frame>, Bytes)
    decreases |s|
  {
    var o := NextFrame(s, Fresh(lastEventId));
    if o.frame.None? then ([], o.lastEventId)
    else
      var (frames, last) := DecodeAll(o.rest, o.lastEventId);
      ([o.frame.value] + frames, last)
  }

  // ----------------------------------------------------------------- the decoder

  function Flatten(pieces: seq<Bytes>): Bytes {
    if |pieces| == 0 then [] else pieces[0] + Flatten(pieces[1..])
  }

  /**
   The decoder over a reader that delivers its input in arbitrary pieces, empty ones
   included, and may report the end together with the last piece or only afterwards.
   */
  class EventDecoder {
    var pieces: seq<Bytes>
    const endWithLast: bool
    var buffered: Bytes
    var eof: bool
    var lastEventId: Bytes

    ghost predicate Valid()
      reads this
    {
      eof ==> pieces == []
    }

    /** The input not yet turned into lines, however it has been or will be delivered. */
    ghost function Left(): Bytes
      reads this
    {
      buffered + Flatten(pieces)
    }

    constructor (pieces: seq<Bytes>, endWithLast: bool)
      ensures Valid() && Left() == Flatten(pieces) && lastEventId == []
    {
      this.pieces, this.endWithLast := pieces, endWithLast;
      buffered, eof, lastEventId := [], false, [];
    }

    method Read()
      requires Valid() && !eof
      modifies this`pieces, this`buffered, this`eof
      ensures Valid() && Left() == old(Left())
      ensures eof || |pieces| < |old(pieces)|
    {
      if |pieces| == 0 {
        eof := true;
        return;
      }
      assert buffered + Flatten(pieces) == (buffered + pieces[0]) + Flatten(pieces[1..]);
      buffered := buffered + pieces[0];
      pieces := pieces[1..];
      eof := endWithLast && |pieces| == 0;
    }

    /** The next line: always the first line of the input left, wherever the pieces were cut. */
    method Scan() returns (line: Option<Bytes>)
      requires Valid()
      modifies this`pieces, this`buffered, this`eof
      ensures Valid()
      ensures var s := old(Left());
              if s == [] then line.None? && Left() == []
              else line == Some(FirstLine(s)) && Left() == s[AfterLine(s)..]
    {
      while true
        invariant Valid() && Left() == old(Left())
        decreases !eof, |pieces|
      {
        if |buffered| > 0 || eof {
          var advance, token := ScanEventLines(buffered, eof);
          if token.Some? {
            TokenIsFirstLine(buffered, Flatten(pieces), eof);
            buffered := buffered[advance..];
            return token;
          }
        }
        if eof {
          return None;
        }
        Read();
      }
    }

    /** The next frame, or none at the end of the stream. */
    method Next() returns (frame: Option<Frame>)
      requires Valid()
      modifies this
      ensures Valid()
      ensures Outcome(frame, Left(), lastEventId) == NextFrame(old(Left()), Fresh(old(lastEventId)))
    {
      var data: Bytes, haveData, eventName: Bytes := [], false, [];
      ghost var target := NextFrame(Left(), Fresh(lastEventId));
      var line := Scan();
      while line.Some?
        invariant Valid()
        invariant line.Some? ==>
                    exists s: Bytes {:trigger FirstLine(s)} ::
                      && s != [] && line == Some(FirstLine(s)) && Left() == s[AfterLine(s)..]
                      && NextFrame(s, Acc(data, haveData, eventName, lastEventId)) == target
        invariant line.None? ==>
                    Left() == [] && NextFrame([], Acc(data, haveData, eventName, lastEventId)) == target
        decreases |Left()|, line.Some?
      {
        ghost var s: Bytes :| s != [] && line == Some(FirstLine(s)) && Left() == s[AfterLine(s)..]
          && NextFrame(s, Acc(data, haveData, eventName, lastEventId)) == target;
        var text := line.value;
        if |text| == 0 {
          if haveData {
            return Some(Frame(data, eventName, lastEventId));
          }
          eventName := [];
        } else if text[0] != COLON {
          var (field, value) := SplitField(text);
          if field == DATA {
            if haveData {
              data := data + [LF];
            }
            data := data + value;
            haveData := true;
          } else if field == EVENT {
            eventName := value;
          } else if field == ID {
            if 0 !in value {
              lastEventId := value;
            }
          }
        }
        assert NextFrame(Left(), Acc(data, haveData, eventName, lastEventId)) == target;
        line := Scan();
      }
      if haveData {
        return Some(Frame(data, eventName, lastEventId));
      }
      return None;
    }
  }

  lemma DecodeNext(s: Bytes, lastEventId: Bytes, o: Outcome)
    requires o == NextFrame(s, Fresh(lastEventId))
    ensures o.frame.None? ==> DecodeAll(s, lastEventId) == ([], o.lastEventId)
    ensures o.frame.Some? ==>
              && DecodeAll(s, lastEventId).1 == DecodeAll(o.rest, o.lastEventId).1
              && forall before: seq<Frame> ::
                   before + DecodeAll(s, lastEventId).0
                   == (before + [o.frame.value]) + DecodeAll(o.rest, o.lastEventId).0
  {
  }

  /** Reading to the end: the frames depend on the bytes alone, not on how they were cut. */
  method DecodeStream(pieces: seq<Bytes>, endWithLast: bool) returns (frames: seq<Frame>, lastEventId: Bytes)
    ensures (frames, lastEventId) == DecodeAll(Flatten(pieces), [])
  {
    var d := new EventDecoder(pieces, endWithLast);
    ghost var all := DecodeAll(Flatten(pieces), []);
    frames := [];
    while true
      invariant fresh(d) && d.Valid()
      invariant frames + DecodeAll(d.Left(), d.lastEventId).0 == all.0
      invariant DecodeAll(d.Left(), d.lastEventId).1 == all.1
      decreases |d.Left()|
    {
      ghost var s, id := d.Left(), d.lastEventId;
      var frame := d.Next();
      DecodeNext(s, id, Outcome(frame, d.Left(), d.lastEventId));
      if frame.None? {
        assert frames + [] == frames;
        return frames, d.lastEventId;
      }
      frames := frames + [frame.value];
    }
  }
}
