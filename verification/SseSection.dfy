/**
 The decoder against the whole of section 9.2.6 of the WHATWG HTML Living Standard: a leading
 byte order mark dropped, an unfinished block discarded, and the last event ID string set by
 each blank line. The decoder departs from all three; this says when that shows.
 */
module SseSection {
  import opened Sse
  import opened SseStandard
  import opened SseMark

  /** The buffers at the end of a stream. */
  function AtEnd(t: Bytes): Buffers {
    ProcessLines(Start(), Lines(Unmarked(t)))
  }

  /** The section's own answer: what was dispatched, and the last event ID string. */
  function Section(t: Bytes): (seq<Frame>, Bytes) {
    (FramesOf(AtEnd(t).sent), AtEnd(t).lastEventId)
  }

  /** No block is left half read: nothing to discard, and no id still waiting for its blank line. */
  predicate EndsClean(t: Bytes) {
    AtEnd(t).data == [] && AtEnd(t).idBuffer == AtEnd(t).lastEventId
  }

  /** No data field before the first blank line. */
  predicate NoDataInBlock(s: Bytes)
    decreases |s|
  {
    |s| > 0 && FirstLine(s) != [] ==>
      && (FirstLine(s)[0] == COLON || SplitField(FirstLine(s)).0 != DATA)
      && NoDataInBlock(s[AfterLine(s)..])
  }

  predicate AllAlike(frames: seq<Frame>) {
    forall i :: 0 <= i < |frames| ==> frames[i] == frames[0]
  }

  /**
   A marked stream whose first line is missed and which does not show it, because what the
   decoder adds at the end makes up for it: a lost data line when every frame is the same and
   one of them is the unfinished one; a lost id when nothing is ever sent.
   */
  predicate MadeUpFor(t: Bytes)
    requires Marked(t)
  {
    var s, b := t[3..], AtEnd(t);
    var line, rest := FirstLine(s), s[AfterLine(s)..];
    && line != [] && line[0] != COLON
    && var field := SplitField(line).0;
       if field == DATA then
         NoDataInBlock(rest) && b.data != [] && AllAlike(InterpretedUnmarked(t).0) && b.idBuffer == b.lastEventId
       else field == ID && b.sent == [] && b.data == [] && b.lastEventId == []
  }

  // ------------------------------------------------------- what a missed line changes

  /** A name changes neither how many frames there are nor the id at the end. */
  lemma {:induction false} NameKeepsCount(s: Bytes, a: Acc, name: Bytes)
    requires Sane(a)
    ensures var d, e := DecodeFrom(s, a), DecodeFrom(s, a.(eventName := name)); |d.0| == |e.0| && d.1 == e.1
    decreases |s|
  {
    var b := a.(eventName := name);
    if |s| == 0 {
      DecodeEnd(a);
      DecodeEnd(b);
    } else {
      var line, rest := FirstLine(s), s[AfterLine(s)..];
      DecodeOneLine(s, a);
      DecodeOneLine(s, b);
      if line != [] {
        if line[0] == COLON {
          NameKeepsCount(rest, a, name);
        } else if SplitField(line).0 == EVENT {
          assert TakeField(a, line) == TakeField(b, line);
        } else {
          assert TakeField(b, line) == TakeField(a, line).(eventName := name);
          NameKeepsCount(rest, TakeField(a, line), name);
        }
      }
    }
  }

  /** An id that shows: in a frame, or, when there is none, at the end alone. */
  lemma {:induction false} IdShowsWhere(s: Bytes, a: Acc, id: Bytes)
    requires Sane(a) && id != a.lastEventId
    ensures var d, e := DecodeFrom(s, a), DecodeFrom(s, a.(lastEventId := id));
            && |d.0| == |e.0|
            && (!IdUnseen(s, a.haveData) ==> if d.0 == [] then d.1 == a.lastEventId && e.1 == id else d.0 != e.0)
    decreases |s|
  {
    var b := a.(lastEventId := id);
    if |s| == 0 {
      DecodeEnd(a);
      DecodeEnd(b);
    } else {
      var line, rest := FirstLine(s), s[AfterLine(s)..];
      DecodeOneLine(s, a);
      DecodeOneLine(s, b);
      if line == [] {
        IdShowsWhere(rest, Fresh(a.lastEventId), id);
        if a.haveData {
          assert DecodeFrom(s, a).0[0] == Dispatch(a) && DecodeFrom(s, b).0[0] == Dispatch(b);
        } else {
          SameAfterBlank(s, a);
          SameAfterBlank(s, b);
        }
      } else if line[0] == COLON {
        IdShowsWhere(rest, a, id);
      } else if SplitField(line).0 == ID && 0 !in SplitField(line).1 {
        assert TakeField(a, line) == TakeField(b, line);
      } else {
        assert TakeField(b, line) == TakeField(a, line).(lastEventId := id);
        IdShowsWhere(rest, TakeField(a, line), id);
      }
    }
  }

  /** Data read before a point makes one frame more if its block has no other, and a longer first frame if it has. */
  lemma {:induction false} DataShowsWhere(s: Bytes, a: Acc, b: Acc)
    requires Sane(a) && Sane(b) && MoreData(a, b)
    ensures var d, e := DecodeFrom(s, a), DecodeFrom(s, b);
            && d.1 == e.1
            && if !b.haveData && NoDataInBlock(s) then |d.0| == |e.0| + 1 && d.0[1..] == e.0
               else |d.0| == |e.0| > 0 && d.0[0] != e.0[0]
    decreases |s|
  {
    if |s| == 0 {
      DecodeEnd(a);
      DecodeEnd(b);
    } else {
      var line, rest := FirstLine(s), s[AfterLine(s)..];
      DecodeOneLine(s, a);
      DecodeOneLine(s, b);
      if line == [] {
        if !b.haveData {
          SameAfterBlank(s, b);
        }
        assert DecodeFrom(s, a).0 == [Dispatch(a)] + DecodeFrom(rest, Fresh(a.lastEventId)).0;
      } else if line[0] == COLON {
        DataShowsWhere(rest, a, b);
      } else {
        FieldKeepsMoreData(a, b, line);
        DataShowsWhere(rest, TakeField(a, line), TakeField(b, line));
      }
    }
  }

  // ------------------------------------------------------------- the agreement

  /** Line by line the decoder has the section's frames, then the unfinished one, and the id buffer. */
  lemma WholeIsSectionAndRest(t: Bytes)
    ensures var (frames, id) := InterpretedUnmarked(t);
            && frames == Section(t).0 + Unfinished(AtEnd(t)) && id == AtEnd(t).idBuffer
            && |frames| == |Section(t).0| + (if AtEnd(t).data == [] then 0 else 1)
  {
  }

  /** Where nothing is missed, the decoder agrees with the section exactly when the stream ends clean. */
  lemma AgreesIfNothingIsMissed(t: Bytes)
    requires !Marked(t) || FirstLineUnseen(t[3..])
    ensures DecodeAll(t, []) == Section(t) <==> EndsClean(t)
  {
    AgreesUnmarkedIff(t);
    WholeIsSectionAndRest(t);
    if AtEnd(t).data == [] {
      assert Section(t).0 + [] == Section(t).0;
    }
  }

  /** What the decoder has of a marked stream, beside what it would have of the stream without the mark. */
  lemma MissedLine(t: Bytes)
    requires Marked(t) && !FirstLineUnseen(t[3..])
    ensures var s := t[3..];
            var line, rest := FirstLine(s), s[AfterLine(s)..];
            && DecodeAll(t, []) == DecodeFrom(rest, Fresh([]))
            && line != [] && line[0] != COLON
            && InterpretedUnmarked(t) == DecodeFrom(rest, TakeField(Fresh([]), line))
  {
    var s := t[3..];
    assert t == BOM + s;
    MarkedFirstLineIsIgnored(s);
    FollowsTheLineRules(s);
    assert DecodeAll(s[AfterLine(s)..], []) == DecodeFrom(s[AfterLine(s)..], Fresh([]));
    assert DecodeAll(s, []) == DecodeFrom(s, Fresh([]));
    DecodeOneLine(s, Fresh([]));
  }

  lemma MissedData(t: Bytes)
    requires Marked(t) && !FirstLineUnseen(t[3..]) && SplitField(FirstLine(t[3..])).0 == DATA
    ensures DecodeAll(t, []) == Section(t) <==> MadeUpFor(t)
  {
    var s := t[3..];
    var line, rest := FirstLine(s), s[AfterLine(s)..];
    MissedLine(t);
    WholeIsSectionAndRest(t);
    DataShowsWhere(rest, TakeField(Fresh([]), line), Fresh([]));
    var whole, seen := InterpretedUnmarked(t).0, DecodeAll(t, []).0;
    if NoDataInBlock(rest) && AtEnd(t).data != [] {
      assert Section(t).0 == whole[..|whole| - 1];
      Rotated(whole, seen);
    }
  }

  /** A sequence without its first is the same without its last exactly when all of it is alike. */
  lemma Rotated(whole: seq<Frame>, seen: seq<Frame>)
    requires |whole| > 0 && whole[1..] == seen
    ensures whole[..|whole| - 1] == seen <==> AllAlike(whole)
  {
    var n := |whole| - 1;
    if whole[..n] == seen {
      forall i | 0 <= i < |whole| ensures whole[i] == whole[0] {
        ShiftedIsConstant(whole, i);
      }
    }
    if AllAlike(whole) {
      assert forall i :: 0 <= i < n ==> whole[..n][i] == seen[i];
      assert whole[..n] == seen;
    }
  }

  lemma {:induction false} ShiftedIsConstant(whole: seq<Frame>, i: nat)
    requires i < |whole| && whole[..|whole| - 1] == whole[1..]
    ensures whole[i] == whole[0]
    decreases i
  {
    if i > 0 {
      ShiftedIsConstant(whole, i - 1);
      assert whole[..|whole| - 1][i - 1] == whole[1..][i - 1];
    }
  }

  lemma MissedName(t: Bytes)
    requires Marked(t) && !FirstLineUnseen(t[3..]) && SplitField(FirstLine(t[3..])).0 == EVENT
    ensures DecodeAll(t, []) != Section(t)
  {
    var s := t[3..];
    var line, rest := FirstLine(s), s[AfterLine(s)..];
    MissedLine(t);
    WholeIsSectionAndRest(t);
    NameKeepsCount(rest, Fresh([]), SplitField(line).1);
    NameShows(rest, Fresh([]), SplitField(line).1);
    if AtEnd(t).data == [] {
      assert Section(t).0 + [] == Section(t).0;
    }
  }

  lemma MissedId(t: Bytes)
    requires Marked(t) && !FirstLineUnseen(t[3..]) && SplitField(FirstLine(t[3..])).0 == ID
    ensures DecodeAll(t, []) == Section(t) <==> MadeUpFor(t)
  {
    var s := t[3..];
    var line, rest := FirstLine(s), s[AfterLine(s)..];
    MissedLine(t);
    WholeIsSectionAndRest(t);
    IdShowsWhere(rest, Fresh([]), SplitField(line).1);
    if AtEnd(t).data == [] {
      assert Section(t).0 + [] == Section(t).0;
    }
  }

  /**
   The decoder agrees with the section on a stream exactly when nothing is missed behind a mark
   and the stream ends clean, or what is missed is made up for by the end.
   */
  lemma AgreesWithTheSectionIff(t: Bytes)
    ensures DecodeAll(t, []) == Section(t)
            <==> if !Marked(t) || FirstLineUnseen(t[3..]) then EndsClean(t) else MadeUpFor(t)
  {
    if !Marked(t) || FirstLineUnseen(t[3..]) {
      AgreesIfNothingIsMissed(t);
    } else if SplitField(FirstLine(t[3..])).0 == DATA {
      MissedData(t);
    } else if SplitField(FirstLine(t[3..])).0 == EVENT {
      MissedName(t);
    } else {
      MissedId(t);
    }
  }
}
