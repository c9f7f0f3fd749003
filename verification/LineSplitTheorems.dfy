/**
 What the line splitter guarantees over whole streams: nothing is lost or invented,
 chunk boundaries are invisible, and probing for the line ending gives the same lines
 as knowing it in advance, except in one exactly characterised case.
 */
module LineSplitTheorems {
  import opened Bytes
  import opened Sequences
  import opened LineSplit

  // ---------------------------------------------------------------- byte exactness

  ghost predicate LineOk(lim: Limits, l: Line) {
    && LF !in l.bytes
    && |l.bytes| <= lim.maxLine
    && Consumed(l) >= 1
    && (l.truncated ==> |l.bytes| == lim.maxLine && l.terminator == TermNone)
  }

  ghost predicate LinesOk(lim: Limits, lines: seq<Line>) {
    forall i :: 0 <= i < |lines| ==> LineOk(lim, lines[i])
  }

  /** A line continues its predecessor exactly when that one was cut. */
  ghost predicate Chained(lines: seq<Line>) {
    forall i :: 0 <= i < |lines| ==> lines[i].continuation == EndsTruncated(lines[..i])
  }

  ghost predicate EndsTruncated(lines: seq<Line>) {
    lines != [] && lines[|lines| - 1].truncated
  }

  ghost predicate Inv(lim: Limits, s: State) {
    && |s.buf| <= lim.maxLine
    && LF !in s.buf
    && LinesOk(lim, s.out)
    && Chained(s.out)
    && s.nextIsContinuation == EndsTruncated(s.out)
    && (s.probing <==> s.mode == Auto)
  }

  /** The bytes accounted for, without a carriage return still in doubt. */
  ghost function Body(s: State): seq<byte> {
    Reassembled(s.out) + s.buf
  }

  /** Every byte accounted for. */
  ghost function Fed(s: State): seq<byte> {
    Reassembled(s.out) + Pending(s)
  }

  lemma EmitKeeps(lim: Limits, s: State, t: Terminator, truncated: bool)
    requires Inv(lim, s)
    requires t == TermNone ==> s.buf != []
    requires truncated ==> t == TermNone && |s.buf| == lim.maxLine
    requires t == TermNone || |s.buf| <= lim.maxLine
    ensures Inv(lim, Emit(s, t, truncated))
    ensures Body(Emit(s, t, truncated)) == Body(s) + Raw(t)
  {
    var l := Line(s.buf, t, truncated, s.nextIsContinuation);
    assert LineOk(lim, l);
    hide Reassembled, LinesOk, Chained, EndsTruncated, LineOk;
    AppendLine(lim, s.out, l);
    Assoc(Reassembled(s.out), s.buf, Raw(t));
  }

  lemma AppendLine(lim: Limits, lines: seq<Line>, l: Line)
    requires LinesOk(lim, lines) && Chained(lines)
    requires LineOk(lim, l) && l.continuation == EndsTruncated(lines)
    ensures LinesOk(lim, lines + [l]) && Chained(lines + [l])
    ensures EndsTruncated(lines + [l]) == l.truncated
    ensures Reassembled(lines + [l]) == Reassembled(lines) + Whole(l)
  {
    hide Reassembled, Whole, LineOk;
    assert Reassembled(lines + [l]) == Reassembled(lines) + Whole(l) by {
      AppendReassembled(lines, l);
    }
    assert forall i :: 0 <= i <= |lines| ==> (lines + [l])[..i] == lines[..i];
    assert lines[..|lines|] == lines;
  }

  lemma AppendReassembled(lines: seq<Line>, l: Line)
    ensures Reassembled(lines + [l]) == Reassembled(lines) + Whole(l)
  {
    assert (lines + [l])[..|lines|] == lines;
  }

  lemma PushContentKeeps(lim: Limits, s: State, b: byte)
    requires lim.Valid() && Inv(lim, s) && |s.buf| < lim.maxLine && b != LF
    ensures Inv(lim, PushContent(lim, s, b)) && |PushContent(lim, s, b).buf| < lim.maxLine
    ensures Body(PushContent(lim, s, b)) == Body(s) + [b]
  {
    var s' := s.(buf := s.buf + [b]);
    assert Body(s') == Body(s) + [b];
    if |s'.buf| >= lim.maxLine {
      EmitKeeps(lim, s', TermNone, true);
    }
  }

  lemma {:induction false} ResplitKeeps(lim: Limits, s: State)
    requires lim.Valid() && Inv(lim, s)
    ensures Inv(lim, Resplit(s)) && |Resplit(s).buf| <= |s.buf|
    ensures Body(Resplit(s)) == Body(s)
    decreases |s.buf|
  {
    hide LinesOk, Chained, EndsTruncated, Reassembled;
    if s.buf == [] {
      assert s.out + [] == s.out;
    } else {
      hide Resplit;
      var n := |s.buf| - 1;
      var p := s.(buf := s.buf[..n]);
      ResplitKeeps(lim, p);
      ResplitMore(s);
      var r := Resplit(p);
      assert Body(s) == Body(p) + [s.buf[n]];
      if s.buf[n] == CR {
        EmitKeeps(lim, r, TermCr, false);
        hide Inv;
      } else {
        assert Body(Resplit(s)) == Body(r) + [s.buf[n]];
      }
    }
  }

  /** Splitting one byte more: a line if it is a carriage return, else kept. */
  lemma ResplitMore(s: State)
    requires s.buf != []
    ensures var n := |s.buf| - 1;
            var r := Resplit(s.(buf := s.buf[..n]));
            Resplit(s) == if s.buf[n] == CR then Emit(r, TermCr, false) else r.(buf := r.buf + [s.buf[n]])
  {
    var n := |s.buf| - 1;
    var (lines, rest, c) := CrSplit(s.buf[..n], s.nextIsContinuation);
    Assoc(s.out, lines, [Line(rest, TermCr, false, c)]);
  }

  lemma MaybeEndProbeKeeps(lim: Limits, s: State, sawCr: bool)
    requires lim.Valid() && Inv(lim, s) && |s.buf| < lim.maxLine
    ensures Inv(lim, MaybeEndProbe(lim, s, sawCr)) && |MaybeEndProbe(lim, s, sawCr).buf| < lim.maxLine
    ensures Body(MaybeEndProbe(lim, s, sawCr)) == Body(s)
    ensures MaybeEndProbe(lim, s, sawCr).pendingCr == s.pendingCr
  {
    if s.probing && s.probeConsumed >= lim.probeBudget && (sawCr || CR in s.buf) {
      ResplitKeeps(lim, s.(probing := false, mode := Cr));
    }
  }

  lemma PlaceKeeps(lim: Limits, s: State, b: byte)
    requires lim.Valid() && Inv(lim, s) && |s.buf| < lim.maxLine && !s.pendingCr
    ensures Inv(lim, Place(lim, s, b)) && |Place(lim, s, b).buf| < lim.maxLine
    ensures Fed(Place(lim, s, b)) == Fed(s) + [b]
  {
    hide LinesOk, Chained, EndsTruncated, Reassembled, MaybeEndProbe;
    if b == CR {
      var p := s.(pendingCr := true);
      MaybeEndProbeKeeps(lim, p, true);
      var m := MaybeEndProbe(lim, p, true);
      assert Fed(m) == Body(m) + [CR];
    } else if b == LF {
      EmitKeeps(lim, LockLf(s), TermLf, false);
    } else {
      PushContentKeeps(lim, s, b);
      var p := PushContent(lim, s, b);
      MaybeEndProbeKeeps(lim, p, false);
      assert Fed(MaybeEndProbe(lim, p, false)) == Body(p);
      assert Fed(s) == Body(s);
    }
  }

  lemma SettleCrKeeps(lim: Limits, s: State)
    requires lim.Valid() && Inv(lim, s) && |s.buf| < lim.maxLine && s.pendingCr
    ensures Inv(lim, SettleCr(lim, s)) && |SettleCr(lim, s).buf| < lim.maxLine
    ensures !SettleCr(lim, s).pendingCr
    ensures Fed(SettleCr(lim, s)) == Fed(s)
  {
    var s' := s.(pendingCr := false);
    assert Fed(s) == Body(s') + [CR];
    if CrTerminates(s') {
      EmitKeeps(lim, s', TermCr, false);
    } else {
      PushContentKeeps(lim, s', CR);
    }
  }

  /** One byte in, one byte more accounted for. */
  lemma StepKeeps(lim: Limits, s: State, b: byte)
    requires lim.Valid() && Inv(lim, s) && |s.buf| < lim.maxLine
    ensures Inv(lim, Step(lim, s, b)) && |Step(lim, s, b).buf| < lim.maxLine
    ensures Fed(Step(lim, s, b)) == Fed(s) + [b]
  {
    hide LinesOk, Chained, EndsTruncated, Reassembled;
    var s1 := Tick(s);
    assert Fed(s1) == Fed(s);
    if s1.pendingCr && b == LF {
      var p := LockLf(s1.(pendingCr := false));
      EmitKeeps(lim, p, TermCrLf, false);
      assert Fed(s1) == Body(p) + [CR];
    } else if s1.pendingCr {
      SettleCrKeeps(lim, s1);
      PlaceKeeps(lim, SettleCr(lim, s1), b);
    } else {
      PlaceKeeps(lim, s1, b);
    }
  }

  lemma InitKeeps(lim: Limits, mode: Mode)
    requires lim.Valid()
    ensures Inv(lim, Init(mode)) && Fed(Init(mode)) == []
  {
  }

  lemma {:induction false} FeedKeeps(lim: Limits, mode: Mode, bs: seq<byte>)
    requires lim.Valid()
    ensures var s := Feed(lim, Init(mode), bs); Inv(lim, s) && |s.buf| < lim.maxLine && Fed(s) == bs
  {
    hide Step, Inv, Fed;
    InitKeeps(lim, mode);
    if bs != [] {
      var n := |bs| - 1;
      FeedKeeps(lim, mode, bs[..n]);
      StepKeeps(lim, Feed(lim, Init(mode), bs[..n]), bs[n]);
      assert bs[..n] + [bs[n]] == bs;
    }
  }

  /** At every moment, emitted lines plus pending bytes are exactly the bytes fed. */
  lemma FeedExact(lim: Limits, mode: Mode, bs: seq<byte>)
    requires lim.Valid()
    ensures var s := Feed(lim, Init(mode), bs);
            && Reassembled(s.out) + Pending(s) == bs
            && LinesOk(lim, s.out) && Chained(s.out)
            && LF !in s.buf && |s.buf| < lim.maxLine
            && Inv(lim, s)
  {
    FeedKeeps(lim, mode, bs);
  }

  /** Splitting a stream and putting it back together gives the stream. */
  lemma SplitExact(lim: Limits, mode: Mode, stream: seq<byte>)
    requires lim.Valid()
    ensures Reassembled(Split(lim, mode, stream)) == stream
    ensures LinesOk(lim, Split(lim, mode, stream))
    ensures Chained(Split(lim, mode, stream))
  {
    FeedExact(lim, mode, stream);
    FinishKeeps(lim, Feed(lim, Init(mode), stream));
  }

  lemma FinishKeeps(lim: Limits, s: State)
    requires lim.Valid() && Inv(lim, s) && |s.buf| < lim.maxLine
    ensures var f := Finish(s); Inv(lim, f) && Reassembled(f.out) == Fed(s) && Pending(f) == []
  {
    hide LinesOk, Chained, EndsTruncated, Reassembled;
    var p := s.(pendingCr := false);
    var s1 := p;
    if s.pendingCr {
      assert Fed(s) == Body(p) + [CR];
      if CrTerminates(s) {
        EmitKeeps(lim, p, TermCr, false);
        s1 := Emit(p, TermCr, false);
      } else {
        s1 := p.(buf := p.buf + [CR]);
      }
    }
    assert Body(s1) == Fed(s);
    if s1.buf != [] {
      EmitKeeps(lim, s1, TermNone, false);
    }
    var f := Finish(s);
    assert Body(f) == Reassembled(f.out);
  }

  /** Where line `i` starts in the stream. */
  ghost function Offset(lines: seq<Line>, i: nat): nat
    requires i <= |lines|
  {
    |Reassembled(lines[..i])|
  }

  /** Each line starts strictly after the one before it, whatever the stream. */
  lemma OffsetsIncrease(lim: Limits, lines: seq<Line>, i: nat, j: nat)
    requires LinesOk(lim, lines)
    requires i < j <= |lines|
    ensures Offset(lines, i) < Offset(lines, j)
  {
    var l := lines[j - 1];
    assert LineOk(lim, l);
    assert lines[..j][..j - 1] == lines[..j - 1];
    assert Offset(lines, j) == Offset(lines, j - 1) + Consumed(l);
    if i < j - 1 {
      OffsetsIncrease(lim, lines, i, j - 1);
    }
  }

  // ------------------------------------------------------- chunks do not show through

  lemma EmitFrame(s: State, o: seq<Line>, t: Terminator, truncated: bool)
    ensures Emit(s.(out := o + s.out), t, truncated)
         == var r := Emit(s, t, truncated); r.(out := o + r.out)
  {
    assert o + s.out + [Line(s.buf, t, truncated, s.nextIsContinuation)]
        == o + (s.out + [Line(s.buf, t, truncated, s.nextIsContinuation)]);
  }

  lemma PushContentFrame(lim: Limits, s: State, o: seq<Line>, b: byte)
    ensures PushContent(lim, s.(out := o + s.out), b)
         == var r := PushContent(lim, s, b); r.(out := o + r.out)
  {
    EmitFrame(s.(buf := s.buf + [b]), o, TermNone, true);
  }

  lemma MaybeEndProbeFrame(lim: Limits, s: State, o: seq<Line>, sawCr: bool)
    ensures MaybeEndProbe(lim, s.(out := o + s.out), sawCr)
         == var r := MaybeEndProbe(lim, s, sawCr); r.(out := o + r.out)
  {
    var lines := CrSplit(s.buf, s.nextIsContinuation).0;
    assert o + s.out + lines == o + (s.out + lines);
  }

  lemma PlaceFrame(lim: Limits, s: State, o: seq<Line>, b: byte)
    ensures Place(lim, s.(out := o + s.out), b) == var r := Place(lim, s, b); r.(out := o + r.out)
  {
    if b == CR {
      MaybeEndProbeFrame(lim, s.(pendingCr := true), o, true);
    } else if b == LF {
      EmitFrame(LockLf(s), o, TermLf, false);
    } else {
      PushContentFrame(lim, s, o, b);
      MaybeEndProbeFrame(lim, PushContent(lim, s, b), o, false);
    }
  }

  lemma SettleCrFrame(lim: Limits, s: State, o: seq<Line>)
    ensures SettleCr(lim, s.(out := o + s.out)) == var r := SettleCr(lim, s); r.(out := o + r.out)
  {
    EmitFrame(s.(pendingCr := false), o, TermCr, false);
    PushContentFrame(lim, s.(pendingCr := false), o, CR);
  }

  lemma TickFrame(s: State, o: seq<Line>)
    ensures Tick(s.(out := o + s.out)) == Tick(s).(out := o + Tick(s).out)
  {
  }

  lemma StepFrame(lim: Limits, s: State, o: seq<Line>, b: byte)
    ensures Step(lim, s.(out := o + s.out), b) == var r := Step(lim, s, b); r.(out := o + r.out)
  {
    var s1 := Tick(s);
    hide Place, SettleCr, Tick;
    assert Tick(s.(out := o + s.out)) == s1.(out := o + s1.out) by { TickFrame(s, o); }
    if s1.pendingCr && b == LF {
      EmitFrame(LockLf(s1.(pendingCr := false)), o, TermCrLf, false);
    } else if s1.pendingCr {
      SettleCrFrame(lim, s1, o);
      PlaceFrame(lim, SettleCr(lim, s1), o, b);
    } else {
      PlaceFrame(lim, s1, o, b);
    }
  }

  /** Lines already taken do not influence the lines still to come. */
  lemma {:induction false} FeedFrame(lim: Limits, s: State, o: seq<Line>, bs: seq<byte>)
    ensures Feed(lim, s.(out := o + s.out), bs) == var r := Feed(lim, s, bs); r.(out := o + r.out)
  {
    if bs != [] {
      var n := |bs| - 1;
      FeedFrame(lim, s, o, bs[..n]);
      StepFrame(lim, Feed(lim, s, bs[..n]), o, bs[n]);
    }
  }

  lemma {:induction false} FeedAppend(lim: Limits, s: State, a: seq<byte>, b: seq<byte>)
    ensures Feed(lim, s, a + b) == Feed(lim, Feed(lim, s, a), b)
  {
    if b == [] {
      assert a + b == a;
    } else {
      var n := |b| - 1;
      assert (a + b)[..|a + b| - 1] == a + b[..n];
      FeedAppend(lim, s, a, b[..n]);
    }
  }

  /** Repeated `Push` calls: the state left behind and all lines handed out. */
  function PushAll(lim: Limits, s: State, chunks: seq<seq<byte>>): (State, seq<Line>)
  {
    if chunks == [] then (s, [])
    else
      var n := |chunks| - 1;
      var (s1, lines) := PushAll(lim, s, chunks[..n]);
      var s2 := Feed(lim, s1, chunks[n]);
      (s2.(out := []), lines + s2.out)
  }

  lemma {:induction false} PushAllIsFeed(lim: Limits, s: State, chunks: seq<seq<byte>>)
    requires s.out == []
    ensures var f := Feed(lim, s, Concat(chunks));
            PushAll(lim, s, chunks) == (f.(out := []), f.out)
  {
    if chunks != [] {
      var n := |chunks| - 1;
      PushAllIsFeed(lim, s, chunks[..n]);
      var f := Feed(lim, s, Concat(chunks[..n]));
      FeedAppend(lim, s, Concat(chunks[..n]), chunks[n]);
      FeedFrame(lim, f.(out := []), f.out, chunks[n]);
      assert f.out + [] == f.out;
    }
  }

  /** However a stream is chopped up, pushing it and flushing gives the one-shot lines. */
  lemma ChunkingIsInvisible(lim: Limits, mode: Mode, chunks: seq<seq<byte>>)
    ensures var (s, lines) := PushAll(lim, Init(mode), chunks);
            lines + Finish(s).out == Split(lim, mode, Concat(chunks))
  {
    PushAllIsFeed(lim, Init(mode), chunks);
    var f := Feed(lim, Init(mode), Concat(chunks));
    FinishFrame(f.(out := []), f.out);
    assert f.out + [] == f.out;
  }

  lemma FinishFrame(s: State, o: seq<Line>)
    ensures Finish(s.(out := o + s.out)) == var r := Finish(s); r.(out := o + r.out)
  {
    var p := s.(pendingCr := false);
    EmitFrame(p, o, TermCr, false);
    EmitFrame(p, o, TermNone, false);
    EmitFrame(p.(buf := p.buf + [CR]), o, TermNone, false);
  }

  // ------------------------------------------------------------ probing against knowing

  /** Two machines hold the same bytes and have produced the same lines. */
  ghost predicate SameCore(a: State, b: State) {
    a.buf == b.buf && a.pendingCr == b.pendingCr
    && a.nextIsContinuation == b.nextIsContinuation && a.out == b.out
  }

  /** Both have stopped probing and agree on whether a CR ends a line. */
  ghost predicate Settled(a: State, b: State) {
    SameCore(a, b) && !a.probing && !b.probing && CrTerminates(a) == CrTerminates(b)
  }

  lemma {:induction false} SettledStaysSettled(lim: Limits, a: State, b: State, bs: seq<byte>)
    requires Settled(a, b)
    ensures Settled(Feed(lim, a, bs), Feed(lim, b, bs))
  {
    if bs != [] {
      var n := |bs| - 1;
      SettledStaysSettled(lim, a, b, bs[..n]);
      SettledStep(lim, Feed(lim, a, bs[..n]), Feed(lim, b, bs[..n]), bs[n]);
    }
  }

  lemma SettledStep(lim: Limits, a: State, b: State, x: byte)
    requires Settled(a, b)
    ensures Settled(Step(lim, a, x), Step(lim, b, x))
  {
    if a.pendingCr && x != LF {
      assert Settled(SettleCr(lim, a), SettleCr(lim, b));
    }
  }

  /** `Crlf` is `Lf` under another name. */
  lemma CrlfIsLf(lim: Limits, stream: seq<byte>)
    ensures Split(lim, Crlf, stream) == Split(lim, Lf, stream)
  {
    SettledStaysSettled(lim, Init(Crlf), Init(Lf), stream);
  }

  /** Until it decides, the probing machine does what a forced `Lf` machine does. */
  lemma {:induction false} ProbingTracksLf(lim: Limits, bs: seq<byte>)
    requires |bs| < lim.probeBudget && LF !in bs
    ensures var a := Feed(lim, Init(Auto), bs);
            && SameCore(a, Feed(lim, Init(Lf), bs))
            && a.mode == Auto && a.probing && a.probeConsumed == |bs|
            && (a.pendingCr <==> bs != [] && bs[|bs| - 1] == CR)
  {
    if bs != [] {
      var n := |bs| - 1;
      ProbingTracksLf(lim, bs[..n]);
      var a, l := Feed(lim, Init(Auto), bs[..n]), Feed(lim, Init(Lf), bs[..n]);
      ForcedStaysForced(lim, Lf, bs[..n]);
      assert bs[n] != LF;
      var a1 := a.(probeConsumed := a.probeConsumed + 1);
      if a.pendingCr {
        assert SameCore(SettleCr(lim, a1), SettleCr(lim, l));
      }
    }
  }

  lemma {:induction false} ForcedStaysForced(lim: Limits, mode: Mode, bs: seq<byte>)
    requires mode != Auto
    ensures var s := Feed(lim, Init(mode), bs); !s.probing && s.mode == mode
  {
    if bs != [] {
      ForcedStaysForced(lim, mode, bs[..|bs| - 1]);
    }
  }

  /** No line produced so far kept a carriage return as content. */
  ghost predicate NoCrIn(lines: seq<Line>) {
    forall i :: 0 <= i < |lines| ==> CR !in lines[i].bytes
  }

  /**
   While undecided, and as long as no forced cut has swallowed a CR, splitting the probe's
   open buffer after the fact gives what a forced `Cr` machine already has.
   */
  lemma {:induction false} ProbingTracksCr(lim: Limits, bs: seq<byte>)
    requires lim.Valid() && |bs| < lim.probeBudget && LF !in bs
    requires NoCrIn(Feed(lim, Init(Auto), bs).out)
    ensures SameCore(Resplit(Feed(lim, Init(Auto), bs)), Feed(lim, Init(Cr), bs))
  {
    if bs != [] {
      hide Step, Resplit;
      var n := |bs| - 1;
      ProbingTracksLf(lim, bs[..n]);
      ForcedStaysForced(lim, Cr, bs[..n]);
      var a, c := Feed(lim, Init(Auto), bs[..n]), Feed(lim, Init(Cr), bs[..n]);
      FeedExact(lim, Auto, bs[..n]);
      var a' := Step(lim, a, bs[n]);
      assert Feed(lim, Init(Auto), bs) == a' && Feed(lim, Init(Cr), bs) == Step(lim, c, bs[n]);
      hide Feed, Inv, LinesOk, Chained, Reassembled;
      StepGrows(lim, a, bs[n]);
      assert forall i :: 0 <= i < |a.out| ==> a.out[i] == a'.out[i];
      ProbingTracksCr(lim, bs[..n]);
      assert bs[n] != LF;
      StepTracksCr(lim, a, c, bs[n]);
    }
  }

  /** A step only adds lines. */
  lemma StepGrows(lim: Limits, s: State, b: byte)
    ensures s.out <= Step(lim, s, b).out
  {
    hide Place, SettleCr;
    var s1 := Tick(s);
    if s1.pendingCr {
      SettleGrows(lim, s1);
      PlaceGrows(lim, SettleCr(lim, s1), b);
    } else {
      PlaceGrows(lim, s1, b);
    }
  }

  lemma SettleGrows(lim: Limits, s: State)
    ensures s.out <= SettleCr(lim, s).out
  {
  }

  lemma {:induction false} FeedGrows(lim: Limits, s: State, bs: seq<byte>)
    ensures s.out <= Feed(lim, s, bs).out
  {
    if bs != [] {
      FeedGrows(lim, s, bs[..|bs| - 1]);
      StepGrows(lim, Feed(lim, s, bs[..|bs| - 1]), bs[|bs| - 1]);
    }
  }

  /** One undecided step on both sides. */
  lemma StepTracksCr(lim: Limits, a: State, c: State, b: byte)
    requires lim.Valid()
    requires a.probing && a.mode == Auto && a.probeConsumed + 1 < lim.probeBudget && b != LF
    requires !c.probing && c.mode == Cr && SameCore(Resplit(a), c)
    requires |a.buf| < lim.maxLine
    requires NoCrIn(Step(lim, a, b).out)
    ensures SameCore(Resplit(Step(lim, a, b)), Step(lim, c, b))
  {
    var a1 := Tick(a);
    hide MaybeEndProbe, Emit;
    if a.pendingCr {
      var a2 := SettleCr(lim, a1);
      PlaceGrows(lim, a2, b);
      assert forall i :: 0 <= i < |a2.out| ==> a2.out[i] == Place(lim, a2, b).out[i];
      SettleTracksCr(lim, a1, c);
      assert !a2.pendingCr by { SettleClears(lim, a1); }
      PlaceTracksCr(lim, a2, SettleCr(lim, c), b);
    } else {
      PlaceTracksCr(lim, a1, c, b);
    }
  }

  lemma SettleClears(lim: Limits, s: State)
    ensures !SettleCr(lim, s).pendingCr
  {
  }

  lemma PlaceGrows(lim: Limits, s: State, b: byte)
    ensures s.out <= Place(lim, s, b).out
  {
  }

  lemma SettleTracksCr(lim: Limits, a: State, c: State)
    requires lim.Valid() && a.probing && c.mode == Cr && !c.probing && a.pendingCr
    requires SameCore(Resplit(a), c) && |a.buf| < lim.maxLine
    requires NoCrIn(SettleCr(lim, a).out)
    ensures var a', c' := SettleCr(lim, a), SettleCr(lim, c);
            && SameCore(Resplit(a'), c') && |a'.buf| < lim.maxLine
            && a'.probing && a'.mode == a.mode && a'.probeConsumed == a.probeConsumed
            && c'.mode == Cr && !c'.probing
  {
    PushTracksCr(lim, a.(pendingCr := false), c.(pendingCr := false), CR);
  }

  lemma PlaceTracksCr(lim: Limits, a: State, c: State, b: byte)
    requires lim.Valid() && a.probing && c.mode == Cr && !c.probing && !a.pendingCr
    requires a.probeConsumed < lim.probeBudget && b != LF
    requires SameCore(Resplit(a), c) && |a.buf| < lim.maxLine
    requires NoCrIn(Place(lim, a, b).out)
    ensures SameCore(Resplit(Place(lim, a, b)), Place(lim, c, b))
  {
    if b != CR {
      PushTracksCr(lim, a, c, b);
    }
  }

  /** Storing one content byte, or a bare CR, on both sides. */
  lemma PushTracksCr(lim: Limits, a: State, c: State, b: byte)
    requires lim.Valid() && SameCore(Resplit(a), c) && |a.buf| < lim.maxLine
    requires NoCrIn(PushContent(lim, a, b).out)
    ensures |PushContent(lim, a, b).buf| < lim.maxLine
    ensures SameCore(Resplit(PushContent(lim, a, b)),
                     if b == CR then Emit(c, TermCr, false) else PushContent(lim, c, b))
  {
    var a' := a.(buf := a.buf + [b]);
    assert a'.buf[..|a.buf|] == a.buf;
    CrSplitLength(a.buf, a.nextIsContinuation);
    if |a'.buf| >= lim.maxLine {
      var e := Emit(a', TermNone, true);
      assert e == PushContent(lim, a, b);
      assert CR !in e.out[|a.out|].bytes;
      assert CR !in a'.buf && CR !in a.buf;
      CrSplitNoCr(a.buf, a.nextIsContinuation);
      assert a.out + [] == a.out;
      assert e.out + [] == e.out;
      assert b != CR;
    }
  }

  lemma {:induction false} CrSplitLength(buf: seq<byte>, c: bool)
    ensures |CrSplit(buf, c).1| <= |buf|
    ensures CR in buf ==> |CrSplit(buf, c).1| < |buf|
  {
    if buf != [] {
      CrSplitLength(buf[..|buf| - 1], c);
      assert buf == buf[..|buf| - 1] + [buf[|buf| - 1]];
    }
  }

  lemma {:induction false} CrSplitNoCr(buf: seq<byte>, c: bool)
    requires CR !in buf
    ensures CrSplit(buf, c) == ([], buf, c)
  {
    if buf != [] {
      CrSplitNoCr(buf[..|buf| - 1], c);
      assert buf == buf[..|buf| - 1] + [buf[|buf| - 1]];
    }
  }

  /** What an operator is told `Auto` means: CR once the window shows CRs and no LF, else LF. */
  ghost function Promised(lim: Limits, stream: seq<byte>): Mode {
    if |stream| >= lim.probeBudget
       && CR in stream[..lim.probeBudget] && LF !in stream[..lim.probeBudget]
    then Cr else Lf
  }

  /** The largest multiple of `m` not above `n`. */
  ghost function Floor(m: nat, n: nat): (f: nat)
    requires m > 0
    ensures f <= n
  {
    if n < m then 0 else m + Floor(m, n - m)
  }

  /** How much of an LF-free window forced cuts have already turned into lines. */
  ghost function CutLength(lim: Limits, window: seq<byte>): (n: nat)
    requires lim.Valid()
    ensures n <= |window|
  {
    Floor(lim.maxLine, if window != [] && window[|window| - 1] == CR then |window| - 1 else |window|)
  }

  /** A forced cut inside an LF-free window has already kept a CR as line content. */
  ghost predicate CrSwallowed(lim: Limits, stream: seq<byte>)
    requires lim.Valid()
  {
    && |stream| >= lim.probeBudget
    && var w := stream[..lim.probeBudget];
       LF !in w && CR in w[..CutLength(lim, w)]
  }

  ghost predicate OnlyCuts(lim: Limits, lines: seq<Line>) {
    forall i :: 0 <= i < |lines| ==> lines[i].terminator == TermNone && |lines[i].bytes| == lim.maxLine
  }

  /** While undecided, every line is a forced cut of exactly the maximum length. */
  lemma {:induction false} ProbingOnlyCuts(lim: Limits, bs: seq<byte>)
    requires lim.Valid() && |bs| < lim.probeBudget && LF !in bs
    ensures OnlyCuts(lim, Feed(lim, Init(Auto), bs).out)
  {
    if bs != [] {
      var n := |bs| - 1;
      ProbingTracksLf(lim, bs[..n]);
      FeedExact(lim, Auto, bs[..n]);
      ProbingOnlyCuts(lim, bs[..n]);
      StepOnlyCuts(lim, Feed(lim, Init(Auto), bs[..n]), bs[n]);
    }
  }

  lemma StepOnlyCuts(lim: Limits, s: State, b: byte)
    requires lim.Valid() && OnlyCuts(lim, s.out) && |s.buf| < lim.maxLine
    requires s.probing && s.probeConsumed + 1 < lim.probeBudget && b != LF
    ensures OnlyCuts(lim, Step(lim, s, b).out)
  {
    hide Resplit;
    var s1 := Tick(s);
    if s.pendingCr {
      var p := s1.(pendingCr := false);
      assert OnlyCuts(lim, PushContent(lim, p, CR).out);
    }
  }

  lemma {:induction false} CutsReassemble(lim: Limits, lines: seq<Line>, rest: nat)
    requires lim.Valid() && OnlyCuts(lim, lines) && rest < lim.maxLine
    ensures Floor(lim.maxLine, |Reassembled(lines)| + rest) == |Reassembled(lines)|
    ensures CR in Reassembled(lines) <==> !NoCrIn(lines)
  {
    if lines != [] {
      var n := |lines| - 1;
      CutsReassemble(lim, lines[..n], rest);
      assert Whole(lines[n]) == lines[n].bytes;
      assert forall i :: 0 <= i < n ==> lines[..n][i] == lines[i];
    }
  }

  /** What an undecided machine holds, in terms of the window alone. */
  lemma UndecidedCuts(lim: Limits, w: seq<byte>)
    requires lim.Valid() && |w| < lim.probeBudget && LF !in w
    ensures NoCrIn(Feed(lim, Init(Auto), w).out) <==> CR !in w[..CutLength(lim, w)]
  {
    hide Feed, Reassembled, NoCrIn, OnlyCuts, Inv, Chained, LinesOk, Floor, SameCore;
    var u := Feed(lim, Init(Auto), w);
    ProbingOnlyCuts(lim, w);
    FeedExact(lim, Auto, w);
    CutsReassemble(lim, u.out, |u.buf|);
    var re, pending := Reassembled(u.out), Pending(u);
    assert w == re + pending;
    ProbingTracksLf(lim, w);
    assert |re| == CutLength(lim, w);
    assert (re + pending)[..|re|] == re;
  }

  /** A longer probe window changes nothing before the shorter one is spent. */
  lemma {:induction false} BudgetUnspent(lim: Limits, longer: Limits, bs: seq<byte>)
    requires longer == lim.(probeBudget := longer.probeBudget) && lim.probeBudget <= longer.probeBudget
    requires |bs| < lim.probeBudget && LF !in bs
    ensures Feed(lim, Init(Auto), bs) == Feed(longer, Init(Auto), bs)
  {
    if bs != [] {
      var n := |bs| - 1;
      BudgetUnspent(lim, longer, bs[..n]);
      ProbingTracksLf(lim, bs[..n]);
      var a := Tick(Feed(lim, Init(Auto), bs[..n]));
      hide Resplit;
      assert SettleCr(lim, a) == SettleCr(longer, a);
    }
  }

  lemma {:induction false} BudgetIrrelevant(lim: Limits, longer: Limits, mode: Mode, bs: seq<byte>)
    requires mode != Auto && longer == lim.(probeBudget := longer.probeBudget)
    ensures Feed(lim, Init(mode), bs) == Feed(longer, Init(mode), bs)
  {
    if bs != [] {
      var n := |bs| - 1;
      BudgetIrrelevant(lim, longer, mode, bs[..n]);
      ForcedStaysForced(lim, mode, bs[..n]);
      var s := Feed(lim, Init(mode), bs[..n]);
      hide Resplit;
      assert SettleCr(lim, s) == SettleCr(longer, s);
    }
  }

  /** At the end of an LF-free window the machine decides on what it holds. */
  lemma Decision(lim: Limits, longer: Limits, w: seq<byte>)
    requires longer == lim.(probeBudget := lim.probeBudget + 1)
    requires lim.Valid() && |w| == lim.probeBudget && LF !in w
    ensures Feed(lim, Init(Auto), w)
         == MaybeEndProbe(lim, Feed(longer, Init(Auto), w), w[|w| - 1] == CR)
  {
    var n := |w| - 1;
    BudgetUnspent(lim, longer, w[..n]);
    ProbingTracksLf(longer, w[..n]);
    var a := Tick(Feed(lim, Init(Auto), w[..n]));
    hide Resplit;
    assert SettleCr(lim, a) == SettleCr(longer, a);
    assert w[n] != LF;
  }

  /** A window with CRs, no LF and nothing swallowed leaves the forced `Cr` state behind. */
  lemma WindowResolvesToCr(lim: Limits, w: seq<byte>)
    requires lim.Valid() && |w| == lim.probeBudget && LF !in w && CR in w
    requires CR !in w[..CutLength(lim, w)]
    ensures Settled(Feed(lim, Init(Auto), w), Feed(lim, Init(Cr), w))
  {
    var longer := lim.(probeBudget := lim.probeBudget + 1);
    Decision(lim, longer, w);
    var u := Feed(longer, Init(Auto), w);
    ProbingTracksLf(longer, w);
    UndecidedCuts(longer, w);
    ProbingTracksCr(longer, w);
    BudgetIrrelevant(lim, longer, Cr, w);
    ForcedStaysForced(lim, Cr, w);
    FeedExact(longer, Auto, w);
    ProbingOnlyCuts(longer, w);
    CutsReassemble(longer, u.out, 0);
    assert u.pendingCr || CR in u.buf;
  }

  lemma WindowResolvesToLf(lim: Limits, w: seq<byte>)
    requires lim.Valid() && |w| == lim.probeBudget && LF !in w && CR !in w
    ensures Settled(Feed(lim, Init(Auto), w), Feed(lim, Init(Lf), w))
  {
    var longer := lim.(probeBudget := lim.probeBudget + 1);
    Decision(lim, longer, w);
    var u := Feed(longer, Init(Auto), w);
    ProbingTracksLf(longer, w);
    BudgetIrrelevant(lim, longer, Lf, w);
    ForcedStaysForced(lim, Lf, w);
    NothingHeldIsNew(longer, w);
    hide Feed, Resplit;
  }

  /** The open buffer only holds bytes of the stream. */
  lemma NothingHeldIsNew(lim: Limits, bs: seq<byte>)
    requires lim.Valid()
    ensures forall x :: x in Feed(lim, Init(Auto), bs).buf ==> x in bs
  {
    FeedExact(lim, Auto, bs);
    hide Feed;
    var u := Feed(lim, Init(Auto), bs);
    assert forall i :: 0 <= i < |u.buf| ==> u.buf[i] == bs[|Reassembled(u.out)| + i];
  }

  /** A line feed inside the window settles on `Lf` at once. */
  lemma LineFeedResolvesToLf(lim: Limits, bs: seq<byte>)
    requires |bs| < lim.probeBudget && LF !in bs
    ensures Settled(Feed(lim, Init(Auto), bs + [LF]), Feed(lim, Init(Lf), bs + [LF]))
  {
    ProbingTracksLf(lim, bs);
    ForcedStaysForced(lim, Lf, bs);
    assert (bs + [LF])[..|bs|] == bs;
    var a, l := Feed(lim, Init(Auto), bs), Feed(lim, Init(Lf), bs);
    if !a.pendingCr {
      assert Step(lim, a, LF) == Emit(LockLf(Tick(a)), TermLf, false);
    }
  }

  lemma FinishSame(a: State, b: State)
    requires SameCore(a, b) && CrTerminates(a) == CrTerminates(b)
    ensures Finish(a).out == Finish(b).out
  {
  }

  lemma SettledSplits(lim: Limits, mode: Mode, head: seq<byte>, stream: seq<byte>)
    requires head <= stream
    requires Settled(Feed(lim, Init(Auto), head), Feed(lim, Init(mode), head))
    ensures Split(lim, Auto, stream) == Split(lim, mode, stream)
  {
    var rest := stream[|head|..];
    assert head + rest == stream;
    FeedAppend(lim, Init(Auto), head, rest);
    FeedAppend(lim, Init(mode), head, rest);
    SettledStaysSettled(lim, Feed(lim, Init(Auto), head), Feed(lim, Init(mode), head), rest);
    FinishSame(Feed(lim, Init(Auto), stream), Feed(lim, Init(mode), stream));
  }

  /** Streams `Auto` must treat as LF, whatever the line limit. */
  lemma ResolvesToLf(lim: Limits, stream: seq<byte>)
    requires lim.Valid()
    requires |stream| < lim.probeBudget || LF in stream[..lim.probeBudget]
    ensures Split(lim, Auto, stream) == Split(lim, Lf, stream)
  {
    hide Feed, Step, Finish;
    if LF in stream {
      hide Split;
      var k := FirstLf(stream);
      assert k < lim.probeBudget by {
        if |stream| >= lim.probeBudget {
          var i :| 0 <= i < lim.probeBudget && stream[..lim.probeBudget][i] == LF;
          assert stream[i] == LF;
        }
      }
      LineFeedResolvesToLf(lim, stream[..k]);
      assert stream[..k] + [LF] == stream[..k + 1];
      SettledSplits(lim, Lf, stream[..k + 1], stream);
    } else {
      ProbingTracksLf(lim, stream);
      ForcedStaysForced(lim, Lf, stream);
      FinishSame(Feed(lim, Init(Auto), stream), Feed(lim, Init(Lf), stream));
    }
  }

  ghost function FirstLf(bs: seq<byte>): (k: nat)
    requires LF in bs
    ensures k < |bs| && bs[k] == LF && LF !in bs[..k]
  {
    if bs[0] == LF then 0 else
      assert bs == [bs[0]] + bs[1..];
      var k := FirstLf(bs[1..]);
      assert bs[..k + 1] == [bs[0]] + bs[1..][..k];
      k + 1
  }

  /** A forced `Cr` machine never keeps a CR as content. */
  lemma {:induction false} ForcedCrIsClean(lim: Limits, bs: seq<byte>)
    ensures var s := Feed(lim, Init(Cr), bs); NoCrIn(s.out) && CR !in s.buf
  {
    if bs != [] {
      var n := |bs| - 1;
      ForcedCrIsClean(lim, bs[..n]);
      ForcedStaysForced(lim, Cr, bs[..n]);
      hide Resplit;
    }
  }

  /** Lines cut while undecided are never taken back. */
  lemma UndecidedLinesSurvive(lim: Limits, longer: Limits, stream: seq<byte>)
    requires longer == lim.(probeBudget := lim.probeBudget + 1)
    requires lim.Valid() && |stream| >= lim.probeBudget && LF !in stream[..lim.probeBudget]
    ensures Feed(longer, Init(Auto), stream[..lim.probeBudget]).out <= Split(lim, Auto, stream)
  {
    var w, rest := stream[..lim.probeBudget], stream[lim.probeBudget..];
    Decision(lim, longer, w);
    assert w + rest == stream;
    FeedAppend(lim, Init(Auto), w, rest);
    FeedGrows(lim, Feed(lim, Init(Auto), w), rest);
    FinishGrows(Feed(lim, Init(Auto), stream));
    hide Feed, Resplit, Finish;
  }

  lemma SwallowedShows(lim: Limits, stream: seq<byte>)
    requires lim.Valid() && CrSwallowed(lim, stream)
    ensures Split(lim, Auto, stream) != Split(lim, Cr, stream)
  {
    var longer := lim.(probeBudget := lim.probeBudget + 1);
    UndecidedLinesSurvive(lim, longer, stream);
    UndecidedCuts(longer, stream[..lim.probeBudget]);
    ForcedCrSplitsClean(lim, stream);
    hide Feed, CutLength, Split;
    var u := Feed(longer, Init(Auto), stream[..lim.probeBudget]);
    var i :| 0 <= i < |u.out| && CR in u.out[i].bytes;
    assert Split(lim, Auto, stream)[i] == u.out[i];
  }

  lemma FinishGrows(s: State)
    ensures s.out <= Finish(s).out
  {
  }

  lemma ForcedCrSplitsClean(lim: Limits, stream: seq<byte>)
    ensures NoCrIn(Split(lim, Cr, stream))
  {
    ForcedCrIsClean(lim, stream);
    ForcedStaysForced(lim, Cr, stream);
  }

  /**
   Probing gives the lines of the ending it is documented to resolve to, on every stream,
   unless a forced cut inside the probe window had already swallowed a carriage return.
   */
  lemma AutoKeepsItsPromise(lim: Limits, stream: seq<byte>)
    requires lim.Valid()
    ensures Split(lim, Auto, stream) == Split(lim, Promised(lim, stream), stream)
            <==> !CrSwallowed(lim, stream)
  {
    if |stream| < lim.probeBudget || LF in stream[..lim.probeBudget] {
      ResolvesToLf(lim, stream);
    } else {
      var w := stream[..lim.probeBudget];
      if CrSwallowed(lim, stream) {
        assert CR in w;
        SwallowedShows(lim, stream);
      } else if CR in w {
        WindowResolvesToCr(lim, w);
        SettledSplits(lim, Cr, w, stream);
      } else {
        WindowResolvesToLf(lim, w);
        SettledSplits(lim, Lf, w, stream);
      }
    }
  }

  /** With a probe window shorter than the line limit nothing can be swallowed. */
  lemma ShortProbeNeverSwallows(lim: Limits, stream: seq<byte>)
    requires lim.Valid() && lim.probeBudget < lim.maxLine
    ensures Split(lim, Auto, stream) == Split(lim, Promised(lim, stream), stream)
  {
    AutoKeepsItsPromise(lim, stream);
  }

  /** The exception is real: 65 carriage returns under a 64-byte limit and a 65-byte probe. */
  lemma SwallowedExample()
    ensures var lim := Limits(64, 65);
            lim.Valid() && CrSwallowed(lim, seq(65, _ => CR))
  {
    var w := seq(65, _ => CR);
    assert w[..65] == w;
    assert CutLength(Limits(64, 65), w) == 64;
    assert w[..64][0] == CR;
  }
}
