/**
 Telnet framing (`runner.rs`): the streaming filter the capture path uses, and the
 whole-buffer stripper, measured against what RFC 854 and RFC 855 say a sender writes.
 */
module Telnet {
  import opened Bytes
  import opened Sequences

  const IAC: byte := 255
  const SB: byte := 250
  const SE: byte := 240

  predicate IsNegotiation(b: byte)
  {
    251 <= b <= 254
  }

  // ------------------------------------------------------------------ the two decoders

  datatype FilterState = Data | Iac | Opt | Sub | SubIac

  /** One byte through the filter: the next state and what reaches the console. */
  function Step(st: FilterState, b: byte): (FilterState, seq<byte>)
  {
    match st
    case Data => if b == IAC then (Iac, []) else (Data, [b])
    case Iac =>
      if b == IAC then (Data, [IAC])
      else if b == SB then (Sub, [])
      else if IsNegotiation(b) then (Opt, [])
      else (Data, [])
    case Opt => (Data, [])
    case Sub => if b == IAC then (SubIac, []) else (Sub, [])
    case SubIac => if b == SE then (Data, []) else (Sub, [])
  }

  function Run(st: FilterState, bs: seq<byte>): (FilterState, seq<byte>)
  {
    if bs == [] then (st, [])
    else
      var (mid, out) := Run(st, bs[..|bs| - 1]);
      var (end, more) := Step(mid, bs[|bs| - 1]);
      (end, out + more)
  }

  class TelnetFilter {
    var state: FilterState

    constructor ()
      ensures state == Data
    {
      state := Data;
    }

    /** Feed a chunk; only what the board sent comes back. */
    method Push(input: seq<byte>) returns (out: seq<byte>)
      modifies this
      ensures (state, out) == Run(old(state), input)
    {
      out := [];
      for i := 0 to |input|
        invariant (state, out) == Run(old(state), input[..i])
      {
        assert input[..i + 1][..i] == input[..i];
        var b := input[i];
        ghost var (next, more) := Step(state, b);
        ghost var before := out;
        match state {
          case Data =>
            if b == IAC {
              state := Iac;
            } else {
              out := out + [b];
            }
          case Iac =>
            if b == IAC {
              out := out + [IAC];
              state := Data;
            } else if b == SB {
              state := Sub;
            } else if 251 <= b <= 254 {
              state := Opt;
            } else {
              state := Data;
            }
          case Opt =>
            state := Data;
          case Sub =>
            if b == IAC {
              state := SubIac;
            }
          case SubIac =>
            state := if b == SE then Data else Sub;
        }
        assert state == next && out == before + more;
      }
      assert input[..|input|] == input;
    }
  }

  /** What follows the first IAC SE, or nothing if there is none. */
  function AfterSub(bs: seq<byte>): (rest: seq<byte>)
    ensures |rest| <= |bs|
  {
    if |bs| < 2 then []
    else if bs[0] == IAC && bs[1] == SE then bs[2..]
    else AfterSub(bs[1..])
  }

  function Drop(bs: seq<byte>, n: nat): seq<byte>
  {
    if n <= |bs| then bs[n..] else []
  }

  /** What the whole-buffer stripper keeps. */
  function Stripped(bs: seq<byte>): seq<byte>
    decreases |bs|
  {
    if bs == [] then []
    else if bs[0] != IAC then [bs[0]] + Stripped(bs[1..])
    else if |bs| == 1 then []
    else if bs[1] == IAC then [IAC] + Stripped(bs[2..])
    else if IsNegotiation(bs[1]) then Stripped(Drop(bs, 3))
    else if bs[1] == SB then Stripped(AfterSub(bs[2..]))
    else Stripped(bs[2..])
  }

  /** How far one step of the stripper moves past a buffer that starts with IAC and a command byte. */
  lemma StrippedIac(input: seq<byte>, i: nat)
    requires i + 1 < |input| && input[i] == IAC
    ensures var c := input[i + 1];
            Stripped(input[i..])
            == if c == IAC then [IAC] + Stripped(Drop(input, i + 2))
               else if IsNegotiation(c) then Stripped(Drop(input, i + 3))
               else if c == SB then Stripped(AfterSub(input[i + 2..]))
               else Stripped(Drop(input, i + 2))
  {
    hide AfterSub;
    var rest := input[i..];
    assert rest[2..] == input[i + 2..] && Drop(rest, 3) == Drop(input, i + 3);
  }

  lemma StrippedPlain(input: seq<byte>, i: nat)
    requires i < |input|
    ensures input[i] != IAC ==> Stripped(input[i..]) == [input[i]] + Stripped(Drop(input, i + 1))
    ensures input[i] == IAC && i + 1 == |input| ==> Stripped(input[i..]) == Stripped(Drop(input, i + 1))
  {
    hide AfterSub;
    assert input[i..][1..] == Drop(input, i + 1);
  }

  method StripTelnet(input: seq<byte>) returns (out: seq<byte>)
    ensures out == Stripped(input)
  {
    assert Drop(input, 0) == input && Stripped([]) == [];
    hide AfterSub, Stripped;
    out := [];
    Unit(Stripped(input));
    var i := 0;
    while i < |input|
      invariant out + Stripped(Drop(input, i)) == Stripped(input)
    {
      StrippedPlain(input, i);
      ghost var next := Stripped(Drop(input, i + 1));
      if input[i] != IAC {
        Assoc(out, [input[i]], next);
        out := out + [input[i]];
        i := i + 1;
      } else if i + 1 == |input| {
        i := i + 1;
      } else {
        StrippedIac(input, i);
        if input[i + 1] == IAC {
          Assoc(out, [IAC], Stripped(Drop(input, i + 2)));
          out := out + [IAC];
          i := i + 2;
        } else if 251 <= input[i + 1] <= 254 {
          i := i + 3;
        } else if input[i + 1] == SB {
          i := SkipSubnegotiation(input, i + 2);
        } else {
          i := i + 2;
        }
      }
    }
    Unit(out);
    assert Drop(input, i) == [];
  }

  /** Index of the byte after the next IAC SE, or past the end. */
  method SkipSubnegotiation(input: seq<byte>, from: nat) returns (i: nat)
    requires from <= |input|
    ensures i > from && Drop(input, i) == AfterSub(input[from..])
  {
    var j := from;
    while j + 1 < |input| && !(input[j] == IAC && input[j + 1] == SE)
      invariant from <= j <= |input|
      invariant AfterSub(input[j..]) == AfterSub(input[from..])
    {
      assert input[j..][1..] == input[j + 1..];
      j := j + 1;
    }
    i := j + 2;
    if j + 1 < |input| {
      assert input[j..][2..] == Drop(input, i);
    }
  }

  // ------------------------------------------------------------------ what a sender writes

  datatype Item =
    | Byte(b: byte)
    | Command(code: byte)
    | Negotiate(verb: byte, option: byte)
    | Subnegotiate(payload: seq<byte>)
  {
    ghost predicate Valid() {
      match this
      case Byte(_) => true
      case Command(code) => code < SB
      case Negotiate(verb, _) => IsNegotiation(verb)
      case Subnegotiate(_) => true
    }
  }

  /** A literal 0xFF is doubled on the wire. */
  function Escaped(bs: seq<byte>): seq<byte>
  {
    if bs == [] then []
    else (if bs[0] == IAC then [IAC, IAC] else [bs[0]]) + Escaped(bs[1..])
  }

  function Encoded(item: Item): seq<byte>
  {
    match item
    case Byte(b) => Escaped([b])
    case Command(code) => [IAC, code]
    case Negotiate(verb, option) => [IAC, verb, option]
    case Subnegotiate(payload) => [IAC, SB] + (Escaped(payload) + [IAC, SE])
  }

  function Wire(items: seq<Item>): seq<byte>
  {
    if items == [] then [] else Encoded(items[0]) + Wire(items[1..])
  }

  /** The console bytes among the items. */
  function Console(items: seq<Item>): seq<byte>
  {
    if items == [] then []
    else (if items[0].Byte? then [items[0].b] else []) + Console(items[1..])
  }

  // ------------------------------------------------------------------ the streaming filter

  lemma {:induction false} RunAppend(st: FilterState, a: seq<byte>, b: seq<byte>)
    ensures var (mid, left) := Run(st, a);
            var (end, right) := Run(mid, b);
            Run(st, a + b) == (end, left + right)
  {
    if b == [] {
      assert a + b == a;
      assert Run(st, a).1 + [] == Run(st, a).1;
    } else {
      var n := |b| - 1;
      assert (a + b)[..|a + b| - 1] == a + b[..n];
      RunAppend(st, a, b[..n]);
      var (mid, left) := Run(st, a);
      var (end, right) := Run(mid, b[..n]);
      Assoc(left, right, Step(end, b[n]).1);
    }
  }

  lemma RunOne(st: FilterState, b: byte)
    ensures Run(st, [b]) == Step(st, b)
  {
    assert [b][..0] == [];
    assert [] + Step(st, b).1 == Step(st, b).1;
  }

  lemma RunTwo(st: FilterState, a: byte, b: byte)
    ensures var (mid, left) := Step(st, a);
            var (end, right) := Step(mid, b);
            Run(st, [a, b]) == (end, left + right)
  {
    RunOne(st, a);
    assert [a, b][..1] == [a];
  }

  lemma {:induction false} RunSubPayload(payload: seq<byte>)
    ensures Run(Sub, Escaped(payload)) == (Sub, [])
  {
    if payload != [] {
      var head := if payload[0] == IAC then [IAC, IAC] else [payload[0]];
      if payload[0] == IAC {
        RunTwo(Sub, IAC, IAC);
      } else {
        RunOne(Sub, payload[0]);
      }
      RunAppend(Sub, head, Escaped(payload[1..]));
      RunSubPayload(payload[1..]);
    }
  }

  lemma ConsoleOne(item: Item)
    ensures Console([item]) == if item.Byte? then [item.b] else []
  {
    assert [item][1..] == [];
  }

  lemma RunItem(item: Item)
    requires item.Valid()
    ensures Run(Data, Encoded(item)) == (Data, Console([item]))
  {
    ConsoleOne(item);
    Unit<byte>([]);
    Unit([IAC]);
    match item
    case Byte(b) =>
      assert Escaped([b]) == (if b == IAC then [IAC, IAC] else [b]) by {
        assert [b][1..] == [];
        Unit([b]);
      }
      if b == IAC {
        RunTwo(Data, IAC, IAC);
      } else {
        RunOne(Data, b);
      }
    case Command(code) =>
      RunTwo(Data, IAC, code);
    case Negotiate(verb, option) =>
      RunTwo(Data, IAC, verb);
      RunOne(Opt, option);
      assert [IAC, verb, option] == [IAC, verb] + [option];
      RunAppend(Data, [IAC, verb], [option]);
    case Subnegotiate(payload) =>
      RunTwo(Data, IAC, SB);
      RunTwo(Sub, IAC, SE);
      RunSubPayload(payload);
      RunAppend(Sub, Escaped(payload), [IAC, SE]);
      RunAppend(Data, [IAC, SB], Escaped(payload) + [IAC, SE]);
  }

  lemma {:induction false} RunWire(items: seq<Item>)
    requires forall i :: 0 <= i < |items| ==> items[i].Valid()
    ensures Run(Data, Wire(items)) == (Data, Console(items))
  {
    if items != [] {
      RunItem(items[0]);
      assert [items[0]][1..] == [];
      RunWire(items[1..]);
      RunAppend(Data, Encoded(items[0]), Wire(items[1..]));
      assert Console([items[0]]) + Console(items[1..]) == Console(items);
    }
  }

  /** Some item has begun and not ended. */
  ghost predicate Unfinished(tail: seq<byte>) {
    exists item: Item :: item.Valid() && tail < Encoded(item)
  }

  lemma RunUnfinishedByte(b: byte, tail: seq<byte>)
    requires tail < Encoded(Byte(b))
    ensures Run(Data, tail).1 == []
  {
    assert Encoded(Byte(b)) == if b == IAC then [IAC, IAC] else [b] by {
      assert [b][1..] == [];
      Unit([b]);
    }
    hide Encoded;
    if tail != [] {
      assert tail == [IAC];
      RunOne(Data, IAC);
    }
  }

  /** Nothing of an unfinished item reaches the console. */
  lemma RunUnfinished(tail: seq<byte>)
    requires Unfinished(tail)
    ensures Run(Data, tail).1 == []
  {
    hide Encoded, Run;
    var item: Item :| item.Valid() && tail < Encoded(item);
    if item.Byte? {
      RunUnfinishedByte(item.b, tail);
    } else {
      RunItem(item);
      ConsoleOne(item);
      var whole := Encoded(item);
      assert whole == tail + whole[|tail|..];
      RunAppend(Data, tail, whole[|tail|..]);
    }
  }

  /** A connection cut off anywhere has handed on exactly the console bytes of its whole items. */
  lemma RunCutOff(items: seq<Item>, tail: seq<byte>)
    requires forall i :: 0 <= i < |items| ==> items[i].Valid()
    requires Unfinished(tail)
    ensures Run(Data, Wire(items) + tail).1 == Console(items)
  {
    hide Run;
    RunWire(items);
    RunUnfinished(tail);
    RunAppend(Data, Wire(items), tail);
    Unit(Console(items));
  }

  /** Repeated `Push` calls: the state left behind and all bytes handed on. */
  function PushAll(st: FilterState, chunks: seq<seq<byte>>): (FilterState, seq<byte>)
  {
    if chunks == [] then (st, [])
    else
      var n := |chunks| - 1;
      var (mid, out) := PushAll(st, chunks[..n]);
      var (end, more) := Run(mid, chunks[n]);
      (end, out + more)
  }

  lemma {:induction false} PushAllIsRun(st: FilterState, chunks: seq<seq<byte>>)
    ensures PushAll(st, chunks) == Run(st, Concat(chunks))
  {
    if chunks != [] {
      var n := |chunks| - 1;
      PushAllIsRun(st, chunks[..n]);
      RunAppend(st, Concat(chunks[..n]), chunks[n]);
    }
  }

  /**
   Whatever a sender writes and wherever the reads cut it, the filter hands on exactly
   the console bytes and ends outside any sequence.
   */
  lemma FilterIsExact(items: seq<Item>, chunks: seq<seq<byte>>)
    requires forall i :: 0 <= i < |items| ==> items[i].Valid()
    requires Concat(chunks) == Wire(items)
    ensures PushAll(Data, chunks) == (Data, Console(items))
  {
    PushAllIsRun(Data, chunks);
    RunWire(items);
  }

  // ------------------------------------------------------------------ the whole-buffer stripper

  /** What the stripper hands on: the console bytes, and the tail of any payload it left early. */
  function Leaky(items: seq<Item>): seq<byte>
  {
    if items == [] then []
    else
      (match items[0]
       case Byte(b) => [b]
       case Subnegotiate(payload) => AfterSub(payload)
       case _ => [])
      + Leaky(items[1..])
  }

  lemma {:induction false} StrippedEscaped(bs: seq<byte>, rest: seq<byte>)
    ensures Stripped(Escaped(bs) + rest) == bs + Stripped(rest)
  {
    if bs == [] {
      assert Escaped(bs) + rest == rest;
    } else {
      var tail := Escaped(bs[1..]) + rest;
      StrippedEscaped(bs[1..], rest);
      StrippedByte(bs[0], tail);
      Assoc(if bs[0] == IAC then [IAC, IAC] else [bs[0]], Escaped(bs[1..]), rest);
      Assoc([bs[0]], bs[1..], Stripped(rest));
      assert [bs[0]] + bs[1..] == bs;
    }
  }

  lemma StrippedByte(b: byte, rest: seq<byte>)
    ensures Stripped((if b == IAC then [IAC, IAC] else [b]) + rest) == [b] + Stripped(rest)
  {
    assert ([IAC, IAC] + rest)[2..] == rest;
    assert ([b] + rest)[1..] == rest;
  }

  /** Inside an escaped payload the stripper looks for IAC SE one payload byte at a time. */
  lemma SubnegotiationStep(p: byte, q: seq<byte>, tail: seq<byte>)
    requires !(p == IAC && q != [] && q[0] == SE)
    requires |tail| >= 2 && tail[0] == IAC
    ensures AfterSub(Escaped([p] + q) + tail) == AfterSub(Escaped(q) + tail)
  {
    var next := Escaped(q) + tail;
    assert next[0] == if q != [] then q[0] else tail[0];
    AfterSubSkip(p, next);
    assert ([p] + q)[1..] == q;
    Assoc(if p == IAC then [IAC, IAC] else [p], Escaped(q), tail);
    hide Escaped;
    if p == IAC {
      AfterSubSkip(IAC, [IAC] + next);
      assert [IAC, IAC] + next == [IAC] + ([IAC] + next);
    }
  }

  lemma AfterSubSkip(b: byte, rest: seq<byte>)
    requires rest != [] && !(b == IAC && rest[0] == SE)
    ensures AfterSub([b] + rest) == AfterSub(rest)
  {
    assert ([b] + rest)[1..] == rest;
  }

  /** A payload that shows IAC SE is left there. */
  lemma SubnegotiationLeft(q: seq<byte>, tail: seq<byte>)
    ensures AfterSub(Escaped([IAC, SE] + q) + tail) == Escaped(q) + tail
  {
    var next := Escaped(q) + tail;
    assert ([IAC, SE] + q)[1..] == [SE] + q;
    assert ([SE] + q)[1..] == q;
    var bs := [IAC] + ([IAC, SE] + next);
    assert Escaped([IAC, SE] + q) + tail == bs;
    assert bs[1..] == [IAC, SE] + next;
    assert bs[1..][2..] == next;
  }

  /** An escaped payload ends for the stripper where the payload itself shows IAC SE. */
  lemma {:induction false} SubnegotiationEnds(payload: seq<byte>, rest: seq<byte>)
    ensures Stripped(AfterSub(Escaped(payload) + ([IAC, SE] + rest))) == AfterSub(payload) + Stripped(rest)
  {
    var tail := [IAC, SE] + rest;
    if payload == [] {
      assert Escaped(payload) + tail == tail;
      assert tail[2..] == rest;
    } else if |payload| >= 2 && payload[0] == IAC && payload[1] == SE {
      var q := payload[2..];
      assert payload == [IAC, SE] + q;
      SubnegotiationLeft(q, tail);
      StrippedEscaped(q, tail);
      StrippedCommand(SE, rest);
    } else {
      var q := payload[1..];
      assert payload == [payload[0]] + q;
      SubnegotiationStep(payload[0], q, tail);
      SubnegotiationEnds(q, rest);
    }
  }

  lemma StrippedCommand(code: byte, rest: seq<byte>)
    requires code < SB
    ensures Stripped([IAC, code] + rest) == Stripped(rest)
  {
    assert ([IAC, code] + rest)[2..] == rest;
  }

  lemma StrippedItem(item: Item, rest: seq<byte>)
    requires item.Valid()
    ensures Stripped(Encoded(item) + rest)
         == (match item
             case Byte(b) => [b]
             case Subnegotiate(payload) => AfterSub(payload)
             case _ => []) + Stripped(rest)
  {
    hide Stripped, AfterSub, Escaped;
    match item
    case Byte(b) =>
      StrippedEscaped([b], rest);
    case Command(code) =>
      StrippedCommand(code, rest);
    case Negotiate(verb, option) =>
      StrippedNegotiation(verb, option, rest);
    case Subnegotiate(payload) =>
      var inner := Escaped(payload) + ([IAC, SE] + rest);
      assert Encoded(item) + rest == [IAC, SB] + inner;
      StrippedSubnegotiation(inner);
      SubnegotiationEnds(payload, rest);
  }

  lemma StrippedNegotiation(verb: byte, option: byte, rest: seq<byte>)
    requires IsNegotiation(verb)
    ensures Stripped([IAC, verb, option] + rest) == Stripped(rest)
  {
    assert Drop([IAC, verb, option] + rest, 3) == rest;
  }

  lemma StrippedSubnegotiation(inner: seq<byte>)
    ensures Stripped([IAC, SB] + inner) == Stripped(AfterSub(inner))
  {
    hide AfterSub;
    assert ([IAC, SB] + inner)[2..] == inner;
  }

  lemma {:induction false} StrippedWire(items: seq<Item>)
    requires forall i :: 0 <= i < |items| ==> items[i].Valid()
    ensures Stripped(Wire(items)) == Leaky(items)
  {
    if items != [] {
      StrippedItem(items[0], Wire(items[1..]));
      StrippedWire(items[1..]);
    }
  }

  /** Some payload shows IAC SE before its own end. */
  ghost predicate EndsEarly(payload: seq<byte>) {
    exists i :: 0 <= i && i + 2 < |payload| && payload[i] == IAC && payload[i + 1] == SE
  }

  ghost predicate AnyEndsEarly(items: seq<Item>) {
    exists i :: 0 <= i < |items| && items[i].Subnegotiate? && EndsEarly(items[i].payload)
  }

  lemma {:induction false} LeakIff(payload: seq<byte>)
    ensures AfterSub(payload) != [] <==> EndsEarly(payload)
  {
    if |payload| >= 2 {
      LeakIff(payload[1..]);
      if payload[0] == IAC && payload[1] == SE {
        assert |payload| > 2 ==> payload[0] == IAC && payload[0 + 1] == SE;
      } else {
        if EndsEarly(payload[1..]) {
          var i :| 0 <= i && i + 2 < |payload[1..]| && payload[1..][i] == IAC && payload[1..][i + 1] == SE;
          assert payload[i + 1] == IAC && payload[i + 1 + 1] == SE;
        }
        if EndsEarly(payload) {
          var i :| 0 <= i && i + 2 < |payload| && payload[i] == IAC && payload[i + 1] == SE;
          assert payload[1..][i - 1] == IAC && payload[1..][i - 1 + 1] == SE;
        }
      }
    }
  }

  lemma {:induction false} LeakyLength(items: seq<Item>)
    ensures |Leaky(items)| >= |Console(items)|
    ensures |Leaky(items)| == |Console(items)| <==> !AnyEndsEarly(items)
    ensures !AnyEndsEarly(items) ==> Leaky(items) == Console(items)
  {
    if items != [] {
      LeakyLength(items[1..]);
      assert items == [items[0]] + items[1..];
      assert AnyEndsEarly(items) <==>
             (items[0].Subnegotiate? && EndsEarly(items[0].payload)) || AnyEndsEarly(items[1..]);
      if items[0].Subnegotiate? {
        LeakIff(items[0].payload);
      }
    }
  }

  /**
   The stripper agrees with the filter exactly when no subnegotiation payload shows
   IAC SE before its last two bytes.
   */
  lemma StripperIsExactIff(items: seq<Item>)
    requires forall i :: 0 <= i < |items| ==> items[i].Valid()
    ensures Stripped(Wire(items)) == Console(items) <==> !AnyEndsEarly(items)
  {
    StrippedWire(items);
    LeakyLength(items);
  }

  /** The failing family has members: one payload byte reaches the console. */
  lemma StripperLeaks()
    ensures Stripped(Wire([Subnegotiate([IAC, SE, 65])])) == [65]
  {
    var items := [Subnegotiate([IAC, SE, 65])];
    StrippedWire(items);
    assert items[1..] == [];
    assert AfterSub([IAC, SE, 65]) == [65];
  }

  /** In particular a payload free of 0xFF is always stripped whole. */
  lemma StripperIsExactWithoutIac(items: seq<Item>)
    requires forall i :: 0 <= i < |items| ==> items[i].Valid()
    requires forall i :: 0 <= i < |items| && items[i].Subnegotiate? ==> IAC !in items[i].payload
    ensures Stripped(Wire(items)) == Console(items)
  {
    StripperIsExactIff(items);
  }
}
