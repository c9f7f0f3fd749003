/**
 The byte-to-line splitter (`linesplit.rs`).

 `State` and the functions over it say what one byte does; `Theorems` about whole
 streams follow in `LineSplitTheorems`. The class `LineSplitter` is the machine the
 source runs, each method proved to make exactly the step its function describes.
 */
module LineSplit {
  import opened Bytes

  /** Which byte ends a line. `Crlf` behaves as `Lf`. */
  datatype Mode = Auto | Lf | Crlf | Cr

  datatype Terminator = TermLf | TermCrLf | TermCr | TermNone

  /** The exact bytes a terminator stands for. */
  function Raw(t: Terminator): seq<byte>
  {
    match t
    case TermLf => [LF]
    case TermCrLf => [CR, LF]
    case TermCr => [CR]
    case TermNone => []
  }

  datatype Line = Line(bytes: seq<byte>, terminator: Terminator, truncated: bool, continuation: bool)

  /** Bytes a line took from the stream, terminator included. */
  function Consumed(l: Line): nat
  {
    |l.bytes| + |Raw(l.terminator)|
  }

  /** The bytes a line was cut from. */
  function Whole(l: Line): seq<byte>
  {
    l.bytes + Raw(l.terminator)
  }

  /** The bytes a list of lines was cut from. */
  function Reassembled(lines: seq<Line>): seq<byte>
  {
    if lines == [] then []
    else Reassembled(lines[..|lines| - 1]) + Whole(lines[|lines| - 1])
  }

  /** The limits in force, already clamped. */
  datatype Limits = Limits(maxLine: nat, probeBudget: nat) {
    ghost predicate Valid() {
      64 <= maxLine && 1 <= probeBudget
    }
  }

  /** What the constructor makes of the configured limits. */
  function Clamped(maxLineBytes: nat, probeBytes: nat): (lim: Limits)
    ensures lim.Valid()
    ensures maxLineBytes >= 64 ==> lim.maxLine == maxLineBytes
    ensures maxLineBytes < 64 ==> lim.maxLine == 64
    ensures probeBytes >= 1 ==> lim.probeBudget == probeBytes
    ensures probeBytes < 1 ==> lim.probeBudget == 1
  {
    Limits(if maxLineBytes < 64 then 64 else maxLineBytes, if probeBytes < 1 then 1 else probeBytes)
  }

  datatype State = State(
    mode: Mode,
    probing: bool,
    probeConsumed: nat,
    buf: seq<byte>,
    pendingCr: bool,
    nextIsContinuation: bool,
    out: seq<Line>)

  function Init(mode: Mode): State
  {
    State(mode, mode == Auto, 0, [], false, false, [])
  }

  predicate CrTerminates(s: State)
  {
    s.mode == Cr && !s.probing
  }

  function Emit(s: State, t: Terminator, truncated: bool): State
  {
    s.(out := s.out + [Line(s.buf, t, truncated, s.nextIsContinuation)],
       buf := [],
       nextIsContinuation := truncated)
  }

  function PushContent(lim: Limits, s: State, b: byte): State
  {
    var s' := s.(buf := s.buf + [b]);
    if |s'.buf| >= lim.maxLine then Emit(s', TermNone, true) else s'
  }

  function LockLf(s: State): State
  {
    if s.probing then s.(probing := false, mode := if s.mode == Auto then Lf else s.mode) else s
  }

  /** A buffer cut after the fact at each CR: the lines, the rest, and the rest's continuation flag. */
  function CrSplit(buf: seq<byte>, continuation: bool): (seq<Line>, seq<byte>, bool)
  {
    if buf == [] then ([], [], continuation)
    else
      var n := |buf| - 1;
      var (lines, rest, c) := CrSplit(buf[..n], continuation);
      if buf[n] == CR then (lines + [Line(rest, TermCr, false, c)], [], false)
      else (lines, rest + [buf[n]], c)
  }

  function Resplit(s: State): State
  {
    var (lines, rest, c) := CrSplit(s.buf, s.nextIsContinuation);
    s.(out := s.out + lines, buf := rest, nextIsContinuation := c)
  }

  function MaybeEndProbe(lim: Limits, s: State, sawCr: bool): State
  {
    if !s.probing || s.probeConsumed < lim.probeBudget then s
    else if sawCr || CR in s.buf then Resplit(s.(probing := false, mode := Cr))
    else s.(probing := false, mode := Lf)
  }

  /** A carriage return that no line feed followed. */
  function SettleCr(lim: Limits, s: State): State
  {
    var s' := s.(pendingCr := false);
    if CrTerminates(s') then Emit(s', TermCr, false) else PushContent(lim, s', CR)
  }

  /** A byte that does not complete a CRLF. */
  function Place(lim: Limits, s: State, b: byte): State
  {
    if b == CR then MaybeEndProbe(lim, s.(pendingCr := true), true)
    else if b == LF then Emit(LockLf(s), TermLf, false)
    else MaybeEndProbe(lim, PushContent(lim, s, b), false)
  }

  /** The probe counts every byte it sees. */
  function Tick(s: State): State
  {
    if s.probing then s.(probeConsumed := s.probeConsumed + 1) else s
  }

  function Step(lim: Limits, s: State, b: byte): State
  {
    var s1 := Tick(s);
    if s1.pendingCr && b == LF then
      Emit(LockLf(s1.(pendingCr := false)), TermCrLf, false)
    else
      Place(lim, if s1.pendingCr then SettleCr(lim, s1) else s1, b)
  }

  /** The state after a run of bytes. */
  function Feed(lim: Limits, s: State, bs: seq<byte>): State
  {
    if bs == [] then s else Step(lim, Feed(lim, s, bs[..|bs| - 1]), bs[|bs| - 1])
  }

  /** End of stream. */
  function Finish(s: State): State
  {
    var s1 :=
      if !s.pendingCr then s
      else if CrTerminates(s) then Emit(s.(pendingCr := false), TermCr, false)
      else s.(pendingCr := false, buf := s.buf + [CR]);
    if s1.buf != [] then Emit(s1, TermNone, false) else s1
  }

  /** Every line of a stream split in one go. */
  function Split(lim: Limits, mode: Mode, stream: seq<byte>): seq<Line>
  {
    Finish(Feed(lim, Init(mode), stream)).out
  }

  /** Bytes taken in but not yet part of a line. */
  function Pending(s: State): seq<byte>
  {
    s.buf + if s.pendingCr then [CR] else []
  }

  class LineSplitter {
    var mode: Mode
    var probing: bool
    var probeConsumed: nat
    const limits: Limits
    var buf: seq<byte>
    var pendingCr: bool
    var nextIsContinuation: bool
    var out: seq<Line>
    var bytesIn: nat

    ghost function View(): State
      reads this
    {
      State(mode, probing, probeConsumed, buf, pendingCr, nextIsContinuation, out)
    }

    constructor (mode: Mode, maxLineBytes: nat, probeBytes: nat)
      ensures View() == Init(mode)
      ensures limits == Clamped(maxLineBytes, probeBytes)
      ensures bytesIn == 0
    {
      this.mode := mode;
      probing := mode == Auto;
      probeConsumed := 0;
      limits := Clamped(maxLineBytes, probeBytes);
      buf, pendingCr, nextIsContinuation, out := [], false, false, [];
      bytesIn := 0;
    }

    /** Bytes held in an unterminated line. */
    method PendingBytes() returns (n: nat)
      ensures n == |Pending(View())|
    {
      n := |buf| + if pendingCr then 1 else 0;
    }

    /** Feed a chunk and take every line it completed. */
    method Push(chunk: seq<byte>) returns (lines: seq<Line>)
      modifies this
      ensures var s := Feed(limits, old(View()), chunk);
              lines == s.out && View() == s.(out := [])
      ensures bytesIn == old(bytesIn) + |chunk|
    {
      bytesIn := bytesIn + |chunk|;
      for i := 0 to |chunk|
        invariant View() == Feed(limits, old(View()), chunk[..i])
        invariant bytesIn == old(bytesIn) + |chunk|
      {
        assert chunk[..i + 1][..i] == chunk[..i];
        Byte(chunk[i]);
      }
      assert chunk[..|chunk|] == chunk;
      lines, out := out, [];
    }

    /** End of stream: whatever is left becomes a line without a terminator. */
    method Flush() returns (lines: seq<Line>)
      modifies this
      ensures var s := Finish(old(View()));
              lines == s.out && View() == s.(out := [])
      ensures bytesIn == old(bytesIn)
    {
      if pendingCr {
        pendingCr := false;
        if mode == Cr && !probing {
          EmitFlagged(TermCr, false);
        } else {
          buf := buf + [CR];
        }
      }
      if buf != [] {
        EmitFlagged(TermNone, false);
      }
      lines, out := out, [];
    }

    method Byte(b: byte)
      modifies this
      ensures View() == Step(limits, old(View()), b)
      ensures bytesIn == old(bytesIn)
    {
      hide Place, PushContent, Emit, LockLf;
      if probing {
        probeConsumed := probeConsumed + 1;
      }
      if pendingCr {
        pendingCr := false;
        if b == LF {
          MarkLf();
          EmitFlagged(TermCrLf, false);
          return;
        }
        if mode == Cr && !probing {
          EmitFlagged(TermCr, false);
        } else {
          Store(CR);
        }
      }
      Accept(b);
    }

    /** A byte that does not complete a CRLF. */
    method Accept(b: byte)
      modifies this
      ensures View() == Place(limits, old(View()), b)
      ensures bytesIn == old(bytesIn)
    {
      if b == CR {
        pendingCr := true;
        EndProbe(true);
      } else if b == LF {
        MarkLf();
        EmitFlagged(TermLf, false);
      } else {
        Store(b);
        EndProbe(false);
      }
    }

    method Store(b: byte)
      modifies this
      ensures View() == PushContent(limits, old(View()), b)
      ensures bytesIn == old(bytesIn)
    {
      buf := buf + [b];
      if |buf| >= limits.maxLine {
        EmitFlagged(TermNone, true);
      }
    }

    method MarkLf()
      modifies this
      ensures View() == LockLf(old(View()))
      ensures bytesIn == old(bytesIn)
    {
      if probing {
        probing := false;
        if mode == Auto {
          mode := Lf;
        }
      }
    }

    method EndProbe(sawCr: bool)
      modifies this
      ensures View() == MaybeEndProbe(limits, old(View()), sawCr)
      ensures bytesIn == old(bytesIn)
    {
      if !probing || probeConsumed < limits.probeBudget {
        return;
      }
      probing := false;
      if sawCr || CR in buf {
        mode := Cr;
        ResplitBufferedCrs();
      } else {
        mode := Lf;
      }
    }

    /** The probe resolved to CR after buffering CRs: cut at each of them now. */
    method ResplitBufferedCrs()
      modifies this
      ensures View() == Resplit(old(View()))
      ensures bytesIn == old(bytesIn)
    {
      var held := buf;
      buf := [];
      for i := 0 to |held|
        invariant View() == Resplit(old(View()).(buf := held[..i]))
        invariant bytesIn == old(bytesIn)
      {
        assert held[..i + 1][..i] == held[..i];
        if held[i] == CR {
          EmitFlagged(TermCr, false);
        } else {
          buf := buf + [held[i]];
        }
      }
      assert held[..|held|] == held;
    }

    method EmitFlagged(t: Terminator, truncated: bool)
      modifies this
      ensures View() == Emit(old(View()), t, truncated)
      ensures bytesIn == old(bytesIn)
    {
      out := out + [Line(buf, t, truncated, nextIsContinuation)];
      buf := [];
      nextIsContinuation := truncated;
    }
  }

  /** Put the stream back together. */
  method Reassemble(lines: seq<Line>) returns (bytes: seq<byte>)
    ensures bytes == Reassembled(lines)
  {
    bytes := [];
    for i := 0 to |lines|
      invariant bytes == Reassembled(lines[..i])
    {
      assert lines[..i + 1][..i] == lines[..i];
      bytes := bytes + lines[i].bytes + Raw(lines[i].terminator);
      assert bytes == Reassembled(lines[..i]) + Whole(lines[i]);
    }
    assert lines[..|lines|] == lines;
  }
}
