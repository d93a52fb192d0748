/**
 A leading byte order mark. Section 9.2.6 of the WHATWG HTML Living Standard decodes the stream
 as UTF-8 first, which drops the mark; the decoder reads it as part of the first field's name.
 */
module SseMark {
  import opened Sse
  import opened SseStandard

  const BOM: Bytes := [0xEF, 0xBB, 0xBF]

  predicate Marked(t: Bytes) {
    |t| >= 3 && t[..3] == BOM
  }

  /** The decoding step, as far as it removes anything. */
  function Unmarked(t: Bytes): Bytes {
    if Marked(t) then t[3..] else t
  }

  /** The line rules over what decoding leaves, the unfinished frame and the id buffer included. */
  function InterpretedUnmarked(t: Bytes): (seq<Frame>, Bytes) {
    Interpreted(Unmarked(t))
  }

  // --------------------------------------------------- when a first line is not missed

  /** An event name set before these bytes is never seen: replaced, or its block has no data. */
  predicate NameUnseen(s: Bytes, haveData: bool)
    decreases |s|
  {
    if |s| == 0 then !haveData
    else
      var line, rest := FirstLine(s), s[AfterLine(s)..];
      if line == [] then !haveData
      else if line[0] == COLON then NameUnseen(rest, haveData)
      else
        var (field, _) := SplitField(line);
        field == EVENT || NameUnseen(rest, haveData || field == DATA)
  }

  /** An id set before these bytes is never seen: replaced before a frame is sent and before the end. */
  predicate IdUnseen(s: Bytes, haveData: bool)
    decreases |s|
  {
    |s| > 0
    && var line, rest := FirstLine(s), s[AfterLine(s)..];
       if line == [] then !haveData && IdUnseen(rest, false)
       else if line[0] == COLON then IdUnseen(rest, haveData)
       else
         var (field, value) := SplitField(line);
         (field == ID && 0 !in value) || IdUnseen(rest, haveData || field == DATA)
  }

  /** The first line leaves no trace in anything that is delivered. */
  predicate FirstLineUnseen(s: Bytes) {
    var line, rest := FirstLine(s), s[AfterLine(s)..];
    if line == [] || line[0] == COLON then true
    else
      var (field, value) := SplitField(line);
      if field == DATA then false
      else if field == EVENT then value == [] || NameUnseen(rest, false)
      else if field == ID then 0 in value || value == [] || IdUnseen(rest, false)
      else true
  }

  /** A half-read frame without a data field has no data. */
  predicate Sane(a: Acc) {
    !a.haveData ==> a.data == []
  }

  lemma DecodeEnd(a: Acc)
    ensures DecodeFrom([], a) == (if a.haveData then [Dispatch(a)] else [], a.lastEventId)
  {
    assert DecodeAll([], a.lastEventId) == ([], a.lastEventId);
    assert [Dispatch(a)] + [] == [Dispatch(a)];
  }

  /** Two half-read frames that differ in the name alone. */
  lemma {:induction false} NameShows(s: Bytes, a: Acc, name: Bytes)
    requires Sane(a) && name != a.eventName
    ensures DecodeFrom(s, a) == DecodeFrom(s, a.(eventName := name)) <==> NameUnseen(s, a.haveData)
    decreases |s|
  {
    var b := a.(eventName := name);
    if |s| == 0 {
      DecodeEnd(a);
      DecodeEnd(b);
    } else {
      var line, rest := FirstLine(s), s[AfterLine(s)..];
      DecodeOneLine(s, a);
      DecodeOneLine(s, b);
      if line == [] {
        if a.haveData {
          assert DecodeFrom(s, a).0[0] == Dispatch(a) && DecodeFrom(s, b).0[0] == Dispatch(b);
        }
      } else if line[0] == COLON {
        NameShows(rest, a, name);
      } else if SplitField(line).0 == EVENT {
        assert TakeField(a, line) == TakeField(b, line);
      } else {
        assert TakeField(b, line) == TakeField(a, line).(eventName := name);
        NameShows(rest, TakeField(a, line), name);
      }
    }
  }

  /** Two half-read frames that differ in the id alone. */
  lemma {:induction false} IdShows(s: Bytes, a: Acc, id: Bytes)
    requires Sane(a) && id != a.lastEventId
    ensures DecodeFrom(s, a) == DecodeFrom(s, a.(lastEventId := id)) <==> IdUnseen(s, a.haveData)
    decreases |s|
  {
    var b := a.(lastEventId := id);
    if |s| == 0 {
      DecodeEnd(a);
      DecodeEnd(b);
    } else {
      var line, rest := FirstLine(s), s[AfterLine(s)..];
      DecodeOneLine(s, a);
      DecodeOneLine(s, b);
      if line == [] {
        if a.haveData {
          assert DecodeFrom(s, a).0[0] == Dispatch(a) && DecodeFrom(s, b).0[0] == Dispatch(b);
        } else {
          SameAfterBlank(s, a);
          SameAfterBlank(s, b);
          IdShows(rest, Fresh(a.lastEventId), id);
        }
      } else if line[0] == COLON {
        IdShows(rest, a, id);
      } else if SplitField(line).0 == ID && 0 !in SplitField(line).1 {
        assert TakeField(a, line) == TakeField(b, line);
      } else {
        assert TakeField(b, line) == TakeField(a, line).(lastEventId := id);
        IdShows(rest, TakeField(a, line), id);
      }
    }
  }

  lemma SameAfterBlank(s: Bytes, a: Acc)
    requires |s| > 0 && FirstLine(s) == [] && !a.haveData && Sane(a)
    ensures DecodeFrom(s, a) == DecodeFrom(s[AfterLine(s)..], Fresh(a.lastEventId))
  {
    DecodeOneLine(s, a);
    var rest := DecodeFrom(s[AfterLine(s)..], Fresh(a.lastEventId));
    assert [] + rest.0 == rest.0;
  }

  /** One frame has data the other has not: any at all, or more of it. */
  predicate MoreData(a: Acc, b: Acc) {
    a.haveData && (b.haveData ==> |a.data| > |b.data|) && a.lastEventId == b.lastEventId
  }

  lemma FieldKeepsMoreData(a: Acc, b: Acc, line: Bytes)
    requires Sane(a) && Sane(b) && MoreData(a, b)
    ensures var a', b' := TakeField(a, line), TakeField(b, line); Sane(a') && Sane(b') && MoreData(a', b')
  {
  }

  /** Data read before a point always shows: in a longer frame, or in one frame more. */
  lemma {:induction false} DataShows(s: Bytes, a: Acc, b: Acc)
    requires Sane(a) && Sane(b) && MoreData(a, b)
    ensures DecodeFrom(s, a).0 != DecodeFrom(s, b).0
    decreases |s|
  {
    if |s| == 0 {
      DecodeEnd(a);
      DecodeEnd(b);
    } else {
      var line, rest := FirstLine(s), s[AfterLine(s)..];
      DecodeOneLine(s, a);
      DecodeOneLine(s, b);
      if line == [] {
        var more := DecodeFrom(rest, Fresh(a.lastEventId)).0;
        assert DecodeFrom(s, a).0 == [Dispatch(a)] + more;
        if b.haveData {
          assert DecodeFrom(s, a).0[0] == Dispatch(a) && DecodeFrom(s, b).0[0] == Dispatch(b);
        } else {
          assert |DecodeFrom(s, b).0| == |more|;
        }
      } else if line[0] == COLON {
        DataShows(rest, a, b);
      } else {
        FieldKeepsMoreData(a, b, line);
        DataShows(rest, TakeField(a, line), TakeField(b, line));
      }
    }
  }

  /** Starting one line in makes no difference exactly when that line leaves no trace. */
  lemma FirstLineShows(s: Bytes)
    ensures DecodeAll(s[AfterLine(s)..], []) == DecodeAll(s, []) <==> FirstLineUnseen(s)
  {
    var line, rest := FirstLine(s), s[AfterLine(s)..];
    assert DecodeAll(s, []) == DecodeFrom(s, Fresh([]));
    assert DecodeAll(rest, []) == DecodeFrom(rest, Fresh([]));
    if |s| == 0 {
      assert rest == s;
    } else if line == [] {
      SameAfterBlank(s, Fresh([]));
    } else {
      DecodeOneLine(s, Fresh([]));
      if line[0] != COLON {
        FirstFieldShows(rest, line);
      }
    }
  }

  lemma FirstFieldShows(rest: Bytes, line: Bytes)
    ensures var (field, value) := SplitField(line);
            DecodeFrom(rest, Fresh([])) == DecodeFrom(rest, TakeField(Fresh([]), line))
            <==> if field == DATA then false
                 else if field == EVENT then value == [] || NameUnseen(rest, false)
                 else if field == ID then 0 in value || value == [] || IdUnseen(rest, false)
                 else true
  {
    var (field, value) := SplitField(line);
    var a := TakeField(Fresh([]), line);
    if field == DATA {
      DataShows(rest, a, Fresh([]));
    } else if field == EVENT && value != [] {
      NameShows(rest, Fresh([]), value);
    } else if field == ID && 0 !in value && value != [] {
      IdShows(rest, Fresh([]), value);
    } else {
      assert a == Fresh([]);
    }
  }

  // ----------------------------------------------------------- the mark itself

  /**
   The decoder makes of a stream what the line rules make of it without its mark, the
   unfinished frame and the id buffer included, if and only if the stream is not marked or the
   line behind the mark leaves no trace.
   */
  lemma AgreesUnmarkedIff(t: Bytes)
    ensures DecodeAll(t, []) == InterpretedUnmarked(t) <==> !Marked(t) || FirstLineUnseen(t[3..])
  {
    FollowsTheLineRules(Unmarked(t));
    if Marked(t) {
      assert t == BOM + t[3..];
      MarkedFirstLineIsIgnored(t[3..]);
      FirstLineShows(t[3..]);
    }
  }

  /** To the decoder the mark belongs to the first field's name, so the whole first line is passed over. */
  lemma MarkedFirstLineIsIgnored(s: Bytes)
    ensures DecodeAll(BOM + s, []) == DecodeAll(s[AfterLine(s)..], [])
  {
    FirstLineGrows(BOM, s);
    MarkedFieldIsUnknown(FirstLine(s));
    UnknownLine(BOM + s);
  }

  lemma UnknownLine(t: Bytes)
    requires |t| > 0
    requires FirstLine(t) != [] && FirstLine(t)[0] != COLON && TakeField(Fresh([]), FirstLine(t)) == Fresh([])
    ensures DecodeAll(t, []) == DecodeAll(t[AfterLine(t)..], [])
  {
    DecodeOneLine(t, Fresh([]));
  }

  /** What a prefix without a terminator does to the first line. */
  lemma FirstLineGrows(p: Bytes, s: Bytes)
    requires forall k :: 0 <= k < |p| ==> !IsTerminator(p[k])
    ensures FirstLine(p + s) == p + FirstLine(s)
    ensures (p + s)[AfterLine(p + s)..] == s[AfterLine(s)..]
  {
    var t, i := p + s, LineEnd(s);
    LineEndIs(t, |p| + i);
    assert AfterLine(t) == |p| + AfterLine(s);
  }

  lemma MarkedFieldIsUnknown(line: Bytes)
    ensures TakeField(Fresh([]), BOM + line) == Fresh([]) && (BOM + line)[0] != COLON
  {
    var marked := BOM + line;
    assert marked[0] == 0xEF;
    assert ColonAt(marked) > 0;
    assert SplitField(marked).0[0] == 0xEF;
  }

  /** A marked stream that loses its one message. */
  lemma MarkedStreamLosesItsFirstMessage()
    ensures var t := BOM + DATA + [COLON, 120, LF, LF];
            InterpretedUnmarked(t).0 == [Frame([120], [], [])] && DecodeAll(t, []).0 == []
  {
    var s := DATA + [COLON, 120, LF, LF];
    assert BOM + DATA + [COLON, 120, LF, LF] == BOM + s;
    assert (BOM + s)[3..] == s && (BOM + s)[..3] == BOM;
    var r := s[AfterLine(s)..];
    OneDataLine(s);
    OneBlankLine(r, Acc([120], true, [], []));
    OneBlankLine(r, Fresh([]));
    assert DecodeAll(s, []) == DecodeFrom(s, Fresh([]));
    assert DecodeAll(r, []) == DecodeFrom(r, Fresh([]));
    FollowsTheLineRules(s);
    MarkedFirstLineIsIgnored(s);
  }

  lemma OneDataLine(s: Bytes)
    requires s == DATA + [COLON, 120, LF, LF]
    ensures s[AfterLine(s)..] == [LF]
    ensures DecodeFrom(s, Fresh([])) == DecodeFrom([LF], Acc([120], true, [], []))
  {
    LineEndIs(s, 6);
    var line := FirstLine(s);
    assert line == DATA + [COLON, 120];
    ColonAtIs(line, 4);
    assert line[..4] == DATA && line[5..] == [120];
    assert SplitField(line) == (DATA, [120]);
    assert [] + [120] == [120 as Byte];
    DecodeOneLine(s, Fresh([]));
  }

  lemma OneBlankLine(r: Bytes, a: Acc)
    requires r == [LF] && Sane(a)
    ensures DecodeFrom(r, a).0 == if a.haveData then [Dispatch(a)] else []
  {
    LineEndIs(r, 0);
    assert FirstLine(r) == [] && r[AfterLine(r)..] == [];
    DecodeOneLine(r, a);
    DecodeEnd(Fresh(a.lastEventId));
    assert [Dispatch(a)] + [] == [Dispatch(a)];
  }
}
