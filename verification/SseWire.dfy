/**
 The server's half of the wire: one record an event, and comment lines in the silences. What
 the decoder makes of it is exactly what was written, whatever keep-alives came in between.
 */
module SseWire {
  import opened Wrappers
  import opened Sse

  datatype Written = KeepAlive | Record(id: Bytes, eventName: Bytes, data: Bytes)

  const KEEP_ALIVE: Bytes := [COLON, SPACE, 107, 101, 101, 112, 45, 97, 108, 105, 118, 101]

  function FieldLine(name: Bytes, value: Bytes): Bytes {
    name + [COLON, SPACE] + value
  }

  function Encode(w: Written): Bytes {
    match w
    case KeepAlive => KEEP_ALIVE + [LF] + ([LF] + [])
    case Record(id, eventName, data) =>
      FieldLine(ID, id) + [LF] + (FieldLine(EVENT, eventName) + [LF] + (FieldLine(DATA, data) + [LF] + ([LF] + [])))
  }

  function EncodeAll(ws: seq<Written>): Bytes {
    if |ws| == 0 then [] else Encode(ws[0]) + EncodeAll(ws[1..])
  }

  /** A value the writer can put on one line. */
  ghost predicate OneLine(b: Bytes) {
    forall i :: 0 <= i < |b| ==> !IsTerminator(b[i])
  }

  /** Encoded JSON, event names and decimal numbers hold no line terminator, and ids no NUL. */
  ghost predicate Writable(w: Written) {
    w.Record? ==> OneLine(w.id) && OneLine(w.eventName) && OneLine(w.data) && 0 !in w.id
  }

  /** The frames a reader should be given, each with the id it was written with. */
  function FramesWritten(ws: seq<Written>): seq<Frame> {
    if |ws| == 0 then []
    else
      (if ws[0].KeepAlive? then [] else [Frame(ws[0].data, ws[0].eventName, ws[0].id)]) + FramesWritten(ws[1..])
  }

  function LastIdWritten(ws: seq<Written>, before: Bytes): Bytes {
    if |ws| == 0 then before
    else LastIdWritten(ws[1..], if ws[0].KeepAlive? then before else ws[0].id)
  }

  lemma FirstLineIs(line: Bytes, rest: Bytes)
    requires OneLine(line)
    ensures var s := line + [LF] + rest;
            FirstLine(s) == line && s[AfterLine(s)..] == rest
  {
    var s := line + [LF] + rest;
    LineEndIs(s, |line|);
  }

  lemma FieldLineSplits(name: Bytes, value: Bytes)
    requires OneLine(name) && OneLine(value) && COLON !in name
    ensures OneLine(FieldLine(name, value))
    ensures SplitField(FieldLine(name, value)) == (name, value)
  {
    var line := FieldLine(name, value);
    ColonAtIs(line, |name|);
    assert line[..|name|] == name;
    assert line[|name| + 1..] == [SPACE] + value;
    assert ([SPACE] + value)[1..] == value;
  }

  /** Reading one field line. */
  lemma ReadField(name: Bytes, value: Bytes, rest: Bytes, a: Acc)
    requires OneLine(name) && OneLine(value) && COLON !in name && name != []
    ensures NextFrame(FieldLine(name, value) + [LF] + rest, a) == NextFrame(rest, TakeField(a, FieldLine(name, value)))
  {
    FieldLineSplits(name, value);
    FirstLineIs(FieldLine(name, value), rest);
    assert FieldLine(name, value)[0] == name[0] != COLON;
  }

  lemma ReadBlank(rest: Bytes, a: Acc)
    ensures NextFrame([LF] + rest, a) ==
              if a.haveData then Outcome(Some(Dispatch(a)), rest, a.lastEventId)
              else NextFrame(rest, a.(eventName := []))
  {
    FirstLineIs([], rest);
    assert [] + [LF] + rest == [LF] + rest;
  }

  lemma Behind(line: Bytes, after: Bytes, rest: Bytes)
    ensures line + [LF] + after + rest == line + [LF] + (after + rest)
  {
  }

  lemma RecordIsFourLines(id: Bytes, eventName: Bytes, data: Bytes, rest: Bytes)
    ensures Encode(Record(id, eventName, data)) + rest ==
              FieldLine(ID, id) + [LF]
              + (FieldLine(EVENT, eventName) + [LF] + (FieldLine(DATA, data) + [LF] + ([LF] + rest)))
  {
    var blank: Bytes := [LF] + [];
    var third := FieldLine(DATA, data) + [LF] + blank;
    assert blank + rest == [LF] + rest;
    Behind(FieldLine(DATA, data), blank, rest);
    Behind(FieldLine(EVENT, eventName), third, rest);
    Behind(FieldLine(ID, id), FieldLine(EVENT, eventName) + [LF] + third, rest);
  }

  lemma IdLine(id: Bytes, rest: Bytes, before: Bytes)
    requires OneLine(id) && 0 !in id
    ensures NextFrame(FieldLine(ID, id) + [LF] + rest, Fresh(before)) == NextFrame(rest, Fresh(id))
  {
    FieldLineSplits(ID, id);
    ReadField(ID, id, rest, Fresh(before));
  }

  lemma EventLine(eventName: Bytes, rest: Bytes, id: Bytes)
    requires OneLine(eventName)
    ensures NextFrame(FieldLine(EVENT, eventName) + [LF] + rest, Fresh(id))
          == NextFrame(rest, Acc([], false, eventName, id))
  {
    FieldLineSplits(EVENT, eventName);
    ReadField(EVENT, eventName, rest, Fresh(id));
  }

  lemma DataLine(data: Bytes, rest: Bytes, eventName: Bytes, id: Bytes)
    requires OneLine(data)
    ensures NextFrame(FieldLine(DATA, data) + [LF] + ([LF] + rest), Acc([], false, eventName, id))
            == Outcome(Some(Frame(data, eventName, id)), rest, id)
  {
    FieldLineSplits(DATA, data);
    assert [] + data == data;
    ReadField(DATA, data, [LF] + rest, Acc([], false, eventName, id));
    ReadBlank(rest, Acc(data, true, eventName, id));
  }

  /** One record, read back. */
  lemma RecordIsReadBack(id: Bytes, eventName: Bytes, data: Bytes, rest: Bytes, before: Bytes)
    requires Writable(Record(id, eventName, data))
    ensures NextFrame(Encode(Record(id, eventName, data)) + rest, Fresh(before))
            == Outcome(Some(Frame(data, eventName, id)), rest, id)
  {
    var tail := FieldLine(DATA, data) + [LF] + ([LF] + rest);
    RecordIsFourLines(id, eventName, data, rest);
    IdLine(id, FieldLine(EVENT, eventName) + [LF] + tail, before);
    EventLine(eventName, tail, id);
    DataLine(data, rest, eventName, id);
  }

  lemma KeepAliveIsSilent(rest: Bytes, before: Bytes)
    ensures NextFrame(Encode(KeepAlive) + rest, Fresh(before)) == NextFrame(rest, Fresh(before))
  {
    assert Encode(KeepAlive) + rest == KEEP_ALIVE + [LF] + ([LF] + rest);
    FirstLineIs(KEEP_ALIVE, [LF] + rest);
    ReadBlank(rest, Fresh(before));
  }

  /**
   Round trip: decoding what the server wrote gives back every event it wrote, in order, with
   its name, payload and id, and nothing for the keep-alives between them.
   */
  lemma {:induction false} WrittenIsReadBack(ws: seq<Written>, before: Bytes)
    requires forall i :: 0 <= i < |ws| ==> Writable(ws[i])
    ensures DecodeAll(EncodeAll(ws), before) == (FramesWritten(ws), LastIdWritten(ws, before))
    decreases |ws|
  {
    if |ws| > 0 {
      var rest := EncodeAll(ws[1..]);
      match ws[0]
      case KeepAlive =>
        KeepAliveIsSilent(rest, before);
        WrittenIsReadBack(ws[1..], before);
        assert DecodeAll(EncodeAll(ws), before) == DecodeAll(rest, before);
        assert [] + FramesWritten(ws[1..]) == FramesWritten(ws[1..]);
      case Record(id, eventName, data) =>
        RecordIsReadBack(id, eventName, data, rest, before);
        WrittenIsReadBack(ws[1..], id);
    }
  }
}
