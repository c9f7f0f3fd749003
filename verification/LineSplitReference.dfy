/**
 Where lines end, said without a machine: find the next terminator, cut the text before it
 into pieces of the maximum length, and go on behind it. The splitter in a forced mode is
 proved to produce exactly these lines.
 */
module LineSplitReference {
  import opened Bytes
  import opened Sequences
  import opened LineSplit
  import opened LineSplitTheorems

  /** Text longer than the limit is cut into full pieces, each continued by the next. */
  function Pieces(lim: Limits, text: seq<byte>, continuation: bool): (seq<Line>, seq<byte>, bool)
    requires lim.Valid()
    decreases |text|
  {
    if |text| < lim.maxLine then ([], text, continuation)
    else
      var (lines, rest, c) := Pieces(lim, text[lim.maxLine..], true);
      ([Line(text[..lim.maxLine], TermNone, true, continuation)] + lines, rest, c)
  }

  predicate EndsInCr(s: seq<byte>)
  {
    s != [] && s[|s| - 1] == CR
  }

  /** Without a trailing carriage return. */
  function Chomped(s: seq<byte>): seq<byte>
  {
    if EndsInCr(s) then s[..|s| - 1] else s
  }

  /** Index of the first byte that ends a line, or the length. */
  function EndOf(crEnds: bool, s: seq<byte>): (i: nat)
    ensures i <= |s|
    ensures LF !in s[..i] && (crEnds ==> CR !in s[..i])
    ensures i < |s| ==> s[i] == LF || (crEnds && s[i] == CR)
  {
    if s == [] || s[0] == LF || (crEnds && s[0] == CR) then 0
    else
      var i := EndOf(crEnds, s[1..]);
      assert s[..i + 1] == [s[0]] + s[1..][..i];
      i + 1
  }

  /** The lines of a stream from the start of a line. */
  function Lines(lim: Limits, crEnds: bool, s: seq<byte>, continuation: bool): seq<Line>
    requires lim.Valid()
    decreases |s|
  {
    var i := EndOf(crEnds, s);
    if i == |s| then
      var (pieces, rest, c) := Pieces(lim, Chomped(s), continuation);
      var tail := rest + if EndsInCr(s) then [CR] else [];
      pieces + if tail == [] then [] else [Line(tail, TermNone, false, c)]
    else if s[i] == CR then
      var (pieces, rest, c) := Pieces(lim, s[..i], continuation);
      if i + 1 < |s| && s[i + 1] == LF then
        pieces + [Line(rest, TermCrLf, false, c)] + Lines(lim, crEnds, s[i + 2..], false)
      else pieces + [Line(rest, TermCr, false, c)] + Lines(lim, crEnds, s[i + 1..], false)
    else
      var (pieces, rest, c) := Pieces(lim, Chomped(s[..i]), continuation);
      var t := if EndsInCr(s[..i]) then TermCrLf else TermLf;
      pieces + [Line(rest, t, false, c)] + Lines(lim, crEnds, s[i + 1..], false)
  }

  /** One more byte either extends the last piece or completes it. */
  lemma {:induction false} PiecesMore(lim: Limits, text: seq<byte>, b: byte, continuation: bool)
    requires lim.Valid()
    ensures |Pieces(lim, text, continuation).1| < lim.maxLine
    ensures var (lines, rest, c) := Pieces(lim, text, continuation);
            Pieces(lim, text + [b], continuation)
            == if |rest| + 1 >= lim.maxLine then (lines + [Line(rest + [b], TermNone, true, c)], [], true)
               else (lines, rest + [b], c)
    decreases |text|
  {
    var m := lim.maxLine;
    var more := text + [b];
    if |text| < m {
      if |more| == m {
        assert more[..m] == more && more[m..] == [];
        Unit([Line(more, TermNone, true, continuation)]);
      }
    } else {
      PiecesMore(lim, text[m..], b, true);
      assert more[..m] == text[..m] && more[m..] == text[m..] + [b];
      var (lines, rest, c) := Pieces(lim, text[m..], true);
      Assoc([Line(text[..m], TermNone, true, continuation)], lines, [Line(rest + [b], TermNone, true, c)]);
    }
  }

  /** A forced machine at the start of a line. */
  ghost predicate AtLineStart(s: State) {
    s.buf == [] && !s.pendingCr && !s.probing && s.mode != Auto
  }

  /** What a machine holds after text without a terminator. */
  ghost function Holding(lim: Limits, s: State, text: seq<byte>): State
    requires lim.Valid()
  {
    var (lines, rest, c) := Pieces(lim, Chomped(text), s.nextIsContinuation);
    s.(out := s.out + lines, buf := rest, nextIsContinuation := c, pendingCr := EndsInCr(text))
  }

  lemma StoreText(lim: Limits, s: State, text: seq<byte>, b: byte)
    requires lim.Valid()
    ensures var (lines, rest, c) := Pieces(lim, text, s.nextIsContinuation);
            var (lines', rest', c') := Pieces(lim, text + [b], s.nextIsContinuation);
            PushContent(lim, s.(out := s.out + lines, buf := rest, nextIsContinuation := c), b)
            == s.(out := s.out + lines', buf := rest', nextIsContinuation := c')
  {
    PiecesMore(lim, text, b, s.nextIsContinuation);
    var (lines, rest, c) := Pieces(lim, text, s.nextIsContinuation);
    Assoc(s.out, lines, [Line(rest + [b], TermNone, true, c)]);
  }

  lemma {:induction false} FeedText(lim: Limits, s: State, text: seq<byte>)
    requires lim.Valid() && AtLineStart(s)
    requires LF !in text && (s.mode == Cr ==> CR !in text)
    ensures Feed(lim, s, text) == Holding(lim, s, text)
  {
    if text == [] {
      Unit(s.out);
    } else {
      var n := |text| - 1;
      var front, b := text[..n], text[n];
      assert Feed(lim, s, text) == Step(lim, Feed(lim, s, front), b) by {
        hide Step, Holding;
      }
      assert front + [b] == text;
      hide Feed, Step, Holding;
      assert b != LF && LF !in front;
      FeedText(lim, s, front);
      FeedOneMore(lim, s, front, b);
    }
  }

  lemma FeedOneMore(lim: Limits, s: State, front: seq<byte>, b: byte)
    requires lim.Valid() && AtLineStart(s) && b != LF
    requires LF !in front && (s.mode == Cr ==> CR !in front && b != CR)
    ensures Step(lim, Holding(lim, s, front), b) == Holding(lim, s, front + [b])
  {
    hide Pieces, Emit, Resplit;
    var text := front + [b];
    assert text[..|front|] == front;
    var y := Chomped(front);
    if EndsInCr(front) {
      assert y + [CR] == front;
      StoreText(lim, s, y, CR);
      if b != CR {
        StoreText(lim, s, front, b);
      }
    } else if b != CR {
      StoreText(lim, s, front, b);
    }
  }

  /** The line a terminator closes. */
  lemma CloseLine(lim: Limits, s: State, text: seq<byte>, b: byte)
    requires lim.Valid() && AtLineStart(s) && b == LF
    ensures var (lines, rest, c) := Pieces(lim, Chomped(text), s.nextIsContinuation);
            var t := if EndsInCr(text) then TermCrLf else TermLf;
            Step(lim, Holding(lim, s, text), b)
            == s.(out := s.out + (lines + [Line(rest, t, false, c)]), nextIsContinuation := false)
  {
    hide Pieces;
    var (lines, rest, c) := Pieces(lim, Chomped(text), s.nextIsContinuation);
    var t := if EndsInCr(text) then TermCrLf else TermLf;
    Assoc(s.out, lines, [Line(rest, t, false, c)]);
  }

  /** In `Cr` mode a carriage return no line feed follows has already ended the line. */
  lemma PendingCrCloses(lim: Limits, s: State, rest: seq<byte>)
    requires s.mode == Cr && !s.probing && s.pendingCr && (rest == [] || rest[0] != LF)
    ensures Finish(Feed(lim, s, rest)).out == Finish(Feed(lim, Emit(s.(pendingCr := false), TermCr, false), rest)).out
  {
    var e := Emit(s.(pendingCr := false), TermCr, false);
    if rest != [] {
      hide Place;
      assert rest == rest[..1] + rest[1..];
      assert rest[..1][..0] == [] && rest[..1][0] == rest[0];
      assert Feed(lim, s, rest[..1]) == Step(lim, s, rest[0]);
      assert Feed(lim, e, rest[..1]) == Step(lim, e, rest[0]);
      assert Step(lim, s, rest[0]) == Step(lim, e, rest[0]);
      FeedAppend(lim, s, rest[..1], rest[1..]);
      FeedAppend(lim, e, rest[..1], rest[1..]);
    }
  }

  lemma FeedSplit(lim: Limits, s: State, stream: seq<byte>, i: nat)
    requires i <= |stream|
    ensures Feed(lim, s, stream) == Feed(lim, Feed(lim, s, stream[..i]), stream[i..])
  {
    assert stream == stream[..i] + stream[i..];
    FeedAppend(lim, s, stream[..i], stream[i..]);
  }

  lemma FeedFirst(lim: Limits, s: State, rest: seq<byte>)
    requires rest != []
    ensures Feed(lim, s, rest) == Feed(lim, Step(lim, s, rest[0]), rest[1..])
  {
    FeedSplit(lim, s, rest, 1);
    assert rest[..1][..0] == [];
    assert Feed(lim, s, rest[..1]) == Step(lim, s, rest[0]);
  }

  /** The machine, from the start of any line, produces the reference lines. */
  lemma {:induction false} MachineIsReference(lim: Limits, s: State, stream: seq<byte>)
    requires lim.Valid() && AtLineStart(s)
    ensures Finish(Feed(lim, s, stream)).out == s.out + Lines(lim, s.mode == Cr, stream, s.nextIsContinuation)
    decreases |stream|, 1
  {
    hide Pieces, Step, Feed, Finish, Holding, Lines, EndOf;
    var crEnds := s.mode == Cr;
    var i := EndOf(crEnds, stream);
    var text, rest := stream[..i], stream[i..];
    FeedText(lim, s, text);
    FeedSplit(lim, s, stream, i);
    if i == |stream| {
      assert text == stream;
      LastLine(lim, s, stream);
    } else {
      assert rest[0] == stream[i] && rest[1..] == stream[i + 1..];
      FeedFirst(lim, Holding(lim, s, text), rest);
      if stream[i] == LF {
        LfLine(lim, s, stream);
      } else {
        CrLine(lim, s, stream);
      }
    }
  }

  lemma LastLine(lim: Limits, s: State, stream: seq<byte>)
    requires lim.Valid() && AtLineStart(s) && EndOf(s.mode == Cr, stream) == |stream|
    ensures Finish(Holding(lim, s, stream)).out
         == s.out + Lines(lim, s.mode == Cr, stream, s.nextIsContinuation)
  {
    hide Pieces;
    assert stream[..|stream|] == stream;
    assert s.mode == Cr ==> !EndsInCr(stream);
    var (pieces, rest, c) := Pieces(lim, Chomped(stream), s.nextIsContinuation);
    var tail := rest + if EndsInCr(stream) then [CR] else [];
    if tail == [] {
      Unit(pieces);
    } else {
      Assoc(s.out, pieces, [Line(tail, TermNone, false, c)]);
    }
    Unit(rest);
  }

  /** Once the lines so far are closed, the rest of the stream follows them. */
  lemma LinesFollow(lim: Limits, s: State, closed: seq<Line>, rest: seq<byte>)
    requires lim.Valid() && AtLineStart(s)
    ensures Finish(Feed(lim, s.(out := s.out + closed, nextIsContinuation := false), rest)).out
         == s.out + (closed + Lines(lim, s.mode == Cr, rest, false))
    decreases |rest|, 2
  {
    hide Feed, Finish, Lines;
    MachineIsReference(lim, s.(out := s.out + closed, nextIsContinuation := false), rest);
    Assoc(s.out, closed, Lines(lim, s.mode == Cr, rest, false));
  }

  lemma LinesAtLf(lim: Limits, crEnds: bool, stream: seq<byte>, continuation: bool)
    requires lim.Valid()
    requires var i := EndOf(crEnds, stream); i < |stream| && stream[i] == LF
    ensures var i := EndOf(crEnds, stream);
            var (lines, rest, c) := Pieces(lim, Chomped(stream[..i]), continuation);
            var t := if EndsInCr(stream[..i]) then TermCrLf else TermLf;
            Lines(lim, crEnds, stream, continuation)
            == lines + [Line(rest, t, false, c)] + Lines(lim, crEnds, stream[i + 1..], false)
  {
    hide Pieces, EndOf, EndsInCr, Chomped;
  }

  lemma LfLineAt(lim: Limits, s: State, text: seq<byte>, after: seq<byte>)
    requires lim.Valid() && AtLineStart(s)
    ensures var (lines, rest, c) := Pieces(lim, Chomped(text), s.nextIsContinuation);
            var t := if EndsInCr(text) then TermCrLf else TermLf;
            Finish(Feed(lim, Step(lim, Holding(lim, s, text), LF), after)).out
            == s.out + (lines + [Line(rest, t, false, c)] + Lines(lim, s.mode == Cr, after, false))
    decreases |after|, 3
  {
    hide Pieces, Step, Feed, Finish, Holding, Lines, EndsInCr, Chomped;
    var (lines, rest, c) := Pieces(lim, Chomped(text), s.nextIsContinuation);
    var t := if EndsInCr(text) then TermCrLf else TermLf;
    CloseLine(lim, s, text, LF);
    LinesFollow(lim, s, lines + [Line(rest, t, false, c)], after);
  }

  lemma LfLine(lim: Limits, s: State, stream: seq<byte>)
    requires lim.Valid() && AtLineStart(s)
    requires var i := EndOf(s.mode == Cr, stream); i < |stream| && stream[i] == LF
    ensures var i := EndOf(s.mode == Cr, stream);
            Finish(Feed(lim, Step(lim, Holding(lim, s, stream[..i]), LF), stream[i + 1..])).out
            == s.out + Lines(lim, s.mode == Cr, stream, s.nextIsContinuation)
    decreases |stream|, 0
  {
    hide Pieces, Step, Feed, Finish, Holding, EndOf, Lines, EndsInCr, Chomped;
    var i := EndOf(s.mode == Cr, stream);
    LinesAtLf(lim, s.mode == Cr, stream, s.nextIsContinuation);
    LfLineAt(lim, s, stream[..i], stream[i + 1..]);
  }

  lemma LinesAtCr(lim: Limits, stream: seq<byte>, continuation: bool)
    requires lim.Valid()
    requires var i := EndOf(true, stream); i < |stream| && stream[i] == CR
    ensures var i := EndOf(true, stream);
            var text, after := stream[..i], stream[i + 1..];
            var (lines, rest, c) := Pieces(lim, text, continuation);
            && !EndsInCr(text)
            && Lines(lim, true, stream, continuation)
               == if after != [] && after[0] == LF
                  then lines + [Line(rest, TermCrLf, false, c)] + Lines(lim, true, after[1..], false)
                  else lines + [Line(rest, TermCr, false, c)] + Lines(lim, true, after, false)
  {
    hide Pieces;
    var i := EndOf(true, stream);
    var after := stream[i + 1..];
    assert !EndsInCr(stream[..i]);
    hide EndOf, EndsInCr;
    if after != [] {
      assert after[1..] == stream[i + 2..] && after[0] == stream[i + 1];
    }
  }

  lemma CrLineAt(lim: Limits, s: State, text: seq<byte>, after: seq<byte>)
    requires lim.Valid() && AtLineStart(s) && s.mode == Cr && !EndsInCr(text)
    ensures var (lines, rest, c) := Pieces(lim, text, s.nextIsContinuation);
            Finish(Feed(lim, Step(lim, Holding(lim, s, text), CR), after)).out
            == s.out + if after != [] && after[0] == LF
                       then lines + [Line(rest, TermCrLf, false, c)] + Lines(lim, true, after[1..], false)
                       else lines + [Line(rest, TermCr, false, c)] + Lines(lim, true, after, false)
    decreases |after|, 3
  {
    hide Pieces, Feed, Finish, Lines, Resplit;
    var (lines, rest, c) := Pieces(lim, text, s.nextIsContinuation);
    var held := Holding(lim, s, text);
    var pending := held.(pendingCr := true);
    assert Step(lim, held, CR) == pending;
    var crlf := after != [] && after[0] == LF;
    var line := Line(rest, if crlf then TermCrLf else TermCr, false, c);
    Assoc(s.out, lines, [line]);
    if crlf {
      FeedFirst(lim, pending, after);
      LinesFollow(lim, s, lines + [line], after[1..]);
    } else {
      PendingCrCloses(lim, pending, after);
      LinesFollow(lim, s, lines + [line], after);
    }
  }

  lemma CrLine(lim: Limits, s: State, stream: seq<byte>)
    requires lim.Valid() && AtLineStart(s) && s.mode == Cr
    requires var i := EndOf(true, stream); i < |stream| && stream[i] == CR
    ensures var i := EndOf(true, stream);
            Finish(Feed(lim, Step(lim, Holding(lim, s, stream[..i]), CR), stream[i + 1..])).out
            == s.out + Lines(lim, true, stream, s.nextIsContinuation)
    decreases |stream|, 0
  {
    hide Pieces, Step, Feed, Finish, Holding, EndOf, Lines, EndsInCr, AtLineStart;
    LinesAtCr(lim, stream, s.nextIsContinuation);
    var i := EndOf(true, stream);
    var text, after := stream[..i], stream[i + 1..];
    CrLineAt(lim, s, text, after);
  }

  /** In a forced mode the splitter produces exactly the reference lines of the stream. */
  lemma SplitIsReference(lim: Limits, mode: Mode, stream: seq<byte>)
    requires lim.Valid() && mode != Auto
    ensures Split(lim, mode, stream) == Lines(lim, mode == Cr, stream, false)
  {
    MachineIsReference(lim, Init(mode), stream);
    Unit(Lines(lim, mode == Cr, stream, false));
  }

  /** So `Auto` is the reference for the ending it promises, exactly unless a forced cut swallowed a CR. */
  lemma AutoIsReference(lim: Limits, stream: seq<byte>)
    requires lim.Valid()
    ensures Split(lim, Auto, stream) == Lines(lim, Promised(lim, stream) == Cr, stream, false)
            <==> !CrSwallowed(lim, stream)
  {
    hide Split, CrSwallowed;
    AutoKeepsItsPromise(lim, stream);
    SplitIsReference(lim, Promised(lim, stream), stream);
  }
}
