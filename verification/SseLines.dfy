/** What a line of the wire is, said without looking for where one ends. */
module SseLines {
  import opened Sse

  /** Every line terminator as one line feed: a CR that an LF follows goes, and any other becomes one. */
  function OneTerminator(s: Bytes): Bytes {
    if |s| == 0 then []
    else if s[0] == 13 then
      if |s| > 1 && s[1] == 10 then OneTerminator(s[1..]) else [10] + OneTerminator(s[1..])
    else [s[0]] + OneTerminator(s[1..])
  }

  /** The pieces between line feeds; the end of the input ends a line that has begun, and begins none. */
  function BetweenLineFeeds(s: Bytes): seq<Bytes> {
    if |s| == 0 then []
    else
      var rest := BetweenLineFeeds(s[1..]);
      if s[0] == 10 then [[]] + rest
      else if rest == [] then [[s[0]]]
      else [[s[0]] + rest[0]] + rest[1..]
  }

  lemma {:induction false} LinesAreBetweenTerminators(s: Bytes)
    ensures Lines(s) == BetweenLineFeeds(OneTerminator(s))
    decreases |s|
  {
    if |s| > 0 {
      var rest := s[1..];
      LinesAreBetweenTerminators(rest);
      if s[0] == LF {
        assert Lines(s) == [[]] + Lines(rest);
        AfterOne(s[0], OneTerminator(rest));
      } else if s[0] == CR {
        if |s| > 1 && s[1] == LF {
          LinesAreBetweenTerminators(s[2..]);
          assert rest[1..] == s[2..];
          assert Lines(s) == [[]] + Lines(s[2..]);
          assert Lines(rest) == [[]] + Lines(s[2..]);
        } else {
          assert Lines(s) == [[]] + Lines(rest);
          AfterOne(10, OneTerminator(rest));
        }
      } else {
        AfterOne(s[0], OneTerminator(rest));
        OneByteMore(s);
      }
    }
  }

  lemma AfterOne(b: Byte, t: Bytes)
    ensures var rest := BetweenLineFeeds(t);
            BetweenLineFeeds([b] + t) ==
              if b == 10 then [[]] + rest else if rest == [] then [[b]] else [[b] + rest[0]] + rest[1..]
  {
    assert ([b] + t)[1..] == t;
  }

  lemma EndOneOn(s: Bytes)
    requires |s| > 0 && !IsTerminator(s[0])
    ensures LineEnd(s) == 1 + LineEnd(s[1..])
  {
  }

  lemma FirstByteOn(s: Bytes)
    requires |s| > 0 && !IsTerminator(s[0])
    ensures AfterLine(s) == 1 + AfterLine(s[1..])
    ensures FirstLine(s) == [s[0]] + FirstLine(s[1..])
  {
    EndOneOn(s);
    var rest, i := s[1..], LineEnd(s[1..]);
    assert i < |rest| ==> s[i + 1] == rest[i];
    assert i + 1 < |rest| ==> s[i + 2] == rest[i + 1];
    assert s[..1 + i] == [s[0]] + rest[..i];
  }

  /** A byte that ends no line is the first of the line the rest begins with. */
  lemma OneByteMore(s: Bytes)
    requires |s| > 0 && !IsTerminator(s[0])
    ensures var rest := Lines(s[1..]);
            Lines(s) == if rest == [] then [[s[0]]] else [[s[0]] + rest[0]] + rest[1..]
  {
    FirstByteOn(s);
    var rest := s[1..];
    var more := Lines(rest[AfterLine(rest)..]);
    assert s[AfterLine(s)..] == rest[AfterLine(rest)..];
    assert Lines(s) == [[s[0]] + FirstLine(rest)] + more;
    if rest != [] {
      assert Lines(rest) == [FirstLine(rest)] + more;
    } else {
      assert rest[AfterLine(rest)..] == [] && [s[0]] + FirstLine(rest) == [s[0]];
    }
  }
}
