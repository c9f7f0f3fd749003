/**
 The telnet filter on any bytes at all: what the five-state machine hands on is what reading the
 whole buffer from the left, one sequence after the other, would keep. And where the whole-buffer
 stripper agrees with it although nobody encoded the buffer properly.
 */
module TelnetReference {
  import opened Bytes
  import opened Sequences
  import opened Telnet

  /** What follows a subnegotiation that has been opened: IAC takes the next byte with it, and IAC SE ends it. */
  function PastSub(bs: seq<byte>): (rest: seq<byte>)
    ensures |rest| <= |bs|
  {
    if |bs| < 2 then []
    else if bs[0] != 255 then PastSub(bs[1..])
    else if bs[1] == 240 then bs[2..]
    else PastSub(bs[2..])
  }

  /** The console bytes of a buffer, read from the left. */
  function Console(bs: seq<byte>): seq<byte>
    decreases |bs|
  {
    if bs == [] then []
    else if bs[0] != 255 then [bs[0]] + Console(bs[1..])
    else if |bs| == 1 then []
    else if bs[1] == 255 then [255] + Console(bs[2..])
    else if bs[1] == 250 then Console(PastSub(bs[2..]))
    else if 251 <= bs[1] <= 254 then (if |bs| == 2 then [] else Console(bs[3..]))
    else Console(bs[2..])
  }

  lemma RunFirst(st: FilterState, bs: seq<byte>)
    requires bs != []
    ensures var (next, out) := Step(st, bs[0]);
            Run(st, bs).1 == out + Run(next, bs[1..]).1
  {
    assert bs == [bs[0]] + bs[1..];
    RunOne(st, bs[0]);
    RunAppend(st, [bs[0]], bs[1..]);
  }

  lemma RunNothing(st: FilterState)
    ensures Run(st, []).1 == []
  {
  }

  /** A byte that hands nothing on. */
  lemma RunSilent(st: FilterState, bs: seq<byte>)
    requires bs != [] && Step(st, bs[0]).1 == []
    ensures Run(st, bs).1 == Run(Step(st, bs[0]).0, bs[1..]).1
  {
    hide Run;
    RunFirst(st, bs);
    Unit(Run(Step(st, bs[0]).0, bs[1..]).1);
  }

  /** Inside a subnegotiation nothing is handed on until it ends. */
  lemma {:induction false} RunSubIs(bs: seq<byte>)
    ensures Run(Sub, bs).1 == Run(Data, PastSub(bs)).1
    decreases |bs|
  {
    hide Run;
    RunNothing(Data);
    RunNothing(Sub);
    RunNothing(SubIac);
    if bs != [] {
      RunSilent(Sub, bs);
      if |bs| == 1 {
        assert bs[1..] == [];
      } else if bs[0] != 255 {
        RunSubIs(bs[1..]);
      } else {
        RunSilent(SubIac, bs[1..]);
        assert bs[1..][1..] == bs[2..];
        if bs[1] != 240 {
          RunSubIs(bs[2..]);
        }
      }
    }
  }

  /** On every byte string the filter hands on exactly its console bytes. */
  lemma {:induction false} FilterIsReference(bs: seq<byte>)
    ensures Run(Data, bs).1 == Console(bs)
    decreases |bs|
  {
    hide Run, PastSub;
    RunNothing(Data);
    RunNothing(Iac);
    RunNothing(Opt);
    if bs == [] {
    } else if bs[0] != 255 {
      RunFirst(Data, bs);
      FilterIsReference(bs[1..]);
    } else {
      RunSilent(Data, bs);
      if |bs| == 1 {
        assert bs[1..] == [];
      } else {
        AfterIac(bs);
      }
    }
  }

  lemma AfterIac(bs: seq<byte>)
    requires |bs| >= 2 && bs[0] == 255
    ensures Run(Iac, bs[1..]).1 == Console(bs)
    decreases |bs|, 0
  {
    hide Run, PastSub;
    RunNothing(Opt);
    assert bs[1..][1..] == bs[2..];
    RunFirst(Iac, bs[1..]);
    if bs[1] == 255 {
      FilterIsReference(bs[2..]);
    } else {
      RunSilent(Iac, bs[1..]);
      if bs[1] == 250 {
        RunSubIs(bs[2..]);
        FilterIsReference(PastSub(bs[2..]));
      } else if 251 <= bs[1] <= 254 {
        if |bs| == 2 {
          assert bs[2..] == [];
        } else {
          RunSilent(Opt, bs[2..]);
          assert bs[2..][1..] == bs[3..];
          FilterIsReference(bs[3..]);
        }
      } else {
        FilterIsReference(bs[2..]);
      }
    }
  }

  /** The same in chunks: repeated pushes on a fresh filter hand on the console bytes of them all. */
  lemma ChunkedFilterIsReference(chunks: seq<seq<byte>>)
    ensures PushAll(Data, chunks).1 == Console(Concat(chunks))
  {
    PushAllIsRun(Data, chunks);
    FilterIsReference(Concat(chunks));
  }

  // ------------------------------------------------------------------ the stripper

  /** Reading the buffer from the left never opens a subnegotiation. */
  ghost predicate NeverOpensSub(bs: seq<byte>)
    decreases |bs|
  {
    if bs == [] || (bs[0] == 255 && |bs| == 1) then true
    else if bs[0] != 255 then NeverOpensSub(bs[1..])
    else if bs[1] == 250 then false
    else if 251 <= bs[1] <= 254 then |bs| == 2 || NeverOpensSub(bs[3..])
    else NeverOpensSub(bs[2..])
  }

  /** Without subnegotiations the stripper keeps what the filter hands on, truncated sequences included. */
  lemma {:induction false} StripperIsReference(bs: seq<byte>)
    requires NeverOpensSub(bs)
    ensures Stripped(bs) == Console(bs)
    decreases |bs|
  {
    if bs == [] || (bs[0] == 255 && |bs| == 1) {
    } else if bs[0] != 255 {
      StripperIsReference(bs[1..]);
    } else if 251 <= bs[1] <= 254 {
      if |bs| > 2 {
        StripperIsReference(bs[3..]);
      }
    } else {
      StripperIsReference(bs[2..]);
    }
  }
}
