/**
 The capture hand-off (`live.rs`): a reader that strips telnet and never waits, a bounded
 queue that counts what it cannot take, and a miner that splits lines, under every
 interleaving of the two.
 */
module Live {
  import opened Bytes
  import opened Sequences
  import T = Telnet
  import L = LineSplit
  import LT = LineSplitTheorems

  const MINER_QUEUE: nat := 4096

  datatype Msg = Chunk(bytes: seq<byte>) | TickMsg

  /** Does this look like the port server's own failure text rather than console output? */
  type Banner = seq<byte> -> bool

  /** How the splitter was configured. */
  datatype Setup = Setup(mode: L.Mode, limits: L.Limits, banner: Banner)

  /**
   What the two threads share and keep, followed by the history the statements are about:
   the raw bytes of each connection, the chunks accepted, the chunks queued, and how many
   of those the miner has taken.
   */
  datatype System = System(
    filter: T.FilterState,
    queue: seq<Msg>,
    splitter: L.State,
    stored: seq<L.Line>,
    bytes: nat,
    lines: nat,
    dropped: nat,
    conns: seq<seq<byte>>,
    accepted: seq<seq<byte>>,
    sent: seq<seq<byte>>,
    mined: nat,
    refused: nat)

  function Started(setup: Setup): System
  {
    System(T.Data, [], L.Init(setup.mode), [], 0, 0, 0, [[]], [], [], 0, 0)
  }

  datatype Step = Reconnect | Read(raw: seq<byte>) | Tick | MineOne

  function LineBytes(lines: seq<L.Line>): nat
  {
    if lines == [] then 0 else LineBytes(lines[..|lines| - 1]) + L.Consumed(lines[|lines| - 1])
  }

  /** A read: strip telnet, refuse the failure banner, hand the rest over or count it as lost. */
  function Absorb(setup: Setup, s: System, raw: seq<byte>): System
    requires s.conns != []
  {
    var (filter, bs) := T.Run(s.filter, raw);
    var last := |s.conns| - 1;
    var s1 := s.(filter := filter, conns := s.conns[last := s.conns[last] + raw]);
    if bs == [] then s1
    else if setup.banner(bs) then s1.(refused := s.refused + |bs|)
    else if |s.queue| < MINER_QUEUE then
      s1.(queue := s.queue + [Chunk(bs)], accepted := s.accepted + [bs], sent := s.sent + [bs])
    else s1.(dropped := s.dropped + |bs|, accepted := s.accepted + [bs])
  }

  /** The miner takes one message. */
  function Mine(setup: Setup, s: System): System
  {
    if s.queue == [] then s
    else
      var rest := s.(queue := s.queue[1..]);
      match s.queue[0]
      case TickMsg => rest
      case Chunk(bs) =>
        var after := L.Feed(setup.limits, s.splitter, bs);
        rest.(splitter := after.(out := []), stored := s.stored + after.out,
              bytes := s.bytes + LineBytes(after.out), lines := s.lines + |after.out|, mined := s.mined + 1)
  }

  /** The reader is gone: what the splitter holds is stored, and not counted. */
  function Closed(s: System): System
  {
    var last := L.Finish(s.splitter);
    s.(splitter := last.(out := []), stored := s.stored + last.out)
  }

  function Next(setup: Setup, s: System, step: Step): System
    requires s.conns != []
  {
    match step
    case Reconnect => s.(filter := T.Data, conns := s.conns + [[]])
    case Read(raw) => Absorb(setup, s, raw)
    case Tick => if |s.queue| < MINER_QUEUE then s.(queue := s.queue + [TickMsg]) else s
    case MineOne => Mine(setup, s)
  }

  ghost function Run(setup: Setup, steps: seq<Step>): (s: System)
    ensures s.conns != []
  {
    if steps == [] then Started(setup)
    else Next(setup, Run(setup, steps[..|steps| - 1]), steps[|steps| - 1])
  }

  /** The capture task, with the filter and the splitter it drives. */
  class Capture {
    const setup: Setup
    var filter: T.TelnetFilter
    const splitter: L.LineSplitter
    var queue: seq<Msg>
    var stored: seq<L.Line>
    var bytes: nat
    var lines: nat
    var dropped: nat
    ghost var conns: seq<seq<byte>>
    ghost var accepted: seq<seq<byte>>
    ghost var sent: seq<seq<byte>>
    ghost var mined: nat
    ghost var refused: nat

    ghost predicate Valid()
      reads this
    {
      conns != [] && splitter.limits == setup.limits
    }

    ghost function View(): System
      reads this, filter, splitter
    {
      System(filter.state, queue, splitter.View(), stored, bytes, lines, dropped, conns, accepted, sent, mined, refused)
    }

    constructor (mode: L.Mode, maxLineBytes: nat, probeBytes: nat, banner: Banner)
      ensures Valid() && fresh(filter) && fresh(splitter)
      ensures setup == Setup(mode, L.Clamped(maxLineBytes, probeBytes), banner)
      ensures View() == Started(setup)
    {
      setup := Setup(mode, L.Clamped(maxLineBytes, probeBytes), banner);
      filter := new T.TelnetFilter();
      splitter := new L.LineSplitter(mode, maxLineBytes, probeBytes);
      queue, stored, bytes, lines, dropped := [], [], 0, 0, 0;
      conns, accepted, sent, mined, refused := [[]], [], [], 0, 0;
    }

    /** The reader's half: never blocks, never mines. */
    method AbsorbRaw(raw: seq<byte>)
      requires Valid()
      modifies this, filter
      ensures Valid() && filter == old(filter)
      ensures View() == Absorb(setup, old(View()), raw)
    {
      hide T.Run;
      var bs := filter.Push(raw);
      conns := conns[|conns| - 1 := conns[|conns| - 1] + raw];
      if bs == [] {
        return;
      }
      if setup.banner(bs) {
        refused := refused + |bs|;
        return;
      }
      accepted := accepted + [bs];
      if |queue| < MINER_QUEUE {
        queue := queue + [Chunk(bs)];
        sent := sent + [bs];
      } else {
        dropped := dropped + |bs|;
      }
    }

    /** A fresh connection gets a fresh filter. */
    method Redial()
      requires Valid()
      modifies this
      ensures Valid() && fresh(filter)
      ensures View() == Next(setup, old(View()), Reconnect)
    {
      filter := new T.TelnetFilter();
      conns := conns + [[]];
    }

    /** The periodic message, given up without a trace when the queue is full. */
    method SendTick()
      requires Valid()
      modifies this
      ensures Valid() && filter == old(filter)
      ensures View() == Next(setup, old(View()), Tick)
    {
      if |queue| < MINER_QUEUE {
        queue := queue + [TickMsg];
      }
    }

    /** The reader is gone: the open line becomes the last one. */
    method Finish()
      requires Valid()
      modifies this, splitter
      ensures Valid() && filter == old(filter)
      ensures View() == Closed(old(View()))
    {
      hide L.Finish;
      var last := splitter.Flush();
      stored := stored + last;
    }

    /** The miner's half: one message from the queue. */
    method MineNext()
      requires Valid()
      modifies this, splitter
      ensures Valid() && filter == old(filter)
      ensures View() == Mine(setup, old(View()))
    {
      hide L.Feed, LineBytes, L.Init, T.Run;
      if queue == [] {
        return;
      }
      var msg := queue[0];
      queue := queue[1..];
      if msg.Chunk? {
        var out := splitter.Push(msg.bytes);
        var consumed := CountBytes(out);
        stored := stored + out;
        bytes := bytes + consumed;
        lines := lines + |out|;
        mined := mined + 1;
      }
    }

    method CountBytes(out: seq<L.Line>) returns (n: nat)
      ensures n == LineBytes(out)
    {
      n := 0;
      for i := 0 to |out|
        invariant n == LineBytes(out[..i])
      {
        assert out[..i + 1][..i] == out[..i];
        n := n + L.Consumed(out[i]);
      }
      assert out[..|out|] == out;
    }
  }

  // ------------------------------------------------------------------ the invariant

  ghost function Queued(queue: seq<Msg>): seq<seq<byte>> {
    if queue == [] then []
    else (if queue[0].Chunk? then [queue[0].bytes] else []) + Queued(queue[1..])
  }

  lemma {:induction false} QueuedAppend(queue: seq<Msg>, msg: Msg)
    ensures Queued(queue + [msg]) == Queued(queue) + if msg.Chunk? then [msg.bytes] else []
  {
    var one: seq<seq<byte>> := if msg.Chunk? then [msg.bytes] else [];
    if queue == [] {
      assert queue + [msg] == [msg] && [msg][1..] == [];
      Unit(one);
    } else {
      var head: seq<seq<byte>> := if queue[0].Chunk? then [queue[0].bytes] else [];
      assert (queue + [msg])[1..] == queue[1..] + [msg];
      QueuedAppend(queue[1..], msg);
      Assoc(head, Queued(queue[1..]), one);
    }
  }

  /** What the filter has let through, connection by connection. */
  ghost function Filtered(conns: seq<seq<byte>>): seq<byte> {
    if conns == [] then []
    else Filtered(conns[..|conns| - 1]) + T.Run(T.Data, conns[|conns| - 1]).1
  }

  /** `sub` is `all` with some chunks left out, in the same order. */
  ghost predicate Subsequence(sub: seq<seq<byte>>, all: seq<seq<byte>>) {
    if all == [] then sub == []
    else
      var n := |all| - 1;
      || (sub != [] && sub[|sub| - 1] == all[n] && Subsequence(sub[..|sub| - 1], all[..n]))
      || Subsequence(sub, all[..n])
  }

  lemma SubsequenceTaken(sub: seq<seq<byte>>, all: seq<seq<byte>>, c: seq<byte>)
    requires Subsequence(sub, all)
    ensures Subsequence(sub + [c], all + [c])
  {
    assert (sub + [c])[..|sub|] == sub && (all + [c])[..|all|] == all;
  }

  lemma SubsequenceMissed(sub: seq<seq<byte>>, all: seq<seq<byte>>, c: seq<byte>)
    requires Subsequence(sub, all)
    ensures Subsequence(sub, all + [c])
  {
    assert (all + [c])[..|all|] == all;
  }

  /** The reader's side: nothing the filter let through is unaccounted for. */
  ghost predicate ReaderInv(s: System) {
    && s.conns != []
    && s.filter == T.Run(T.Data, s.conns[|s.conns| - 1]).0
    && |Filtered(s.conns)| == |Concat(s.accepted)| + s.refused
    && (s.refused == 0 ==> Filtered(s.conns) == Concat(s.accepted))
    && |Concat(s.accepted)| == |Concat(s.sent)| + s.dropped
    && Subsequence(s.sent, s.accepted)
    && (s.dropped == 0 ==> s.sent == s.accepted)
    && |s.queue| <= MINER_QUEUE
  }

  /** The miner's side: it has pushed the first chunks sent, in order, and the rest are queued. */
  ghost predicate MinerInv(setup: Setup, s: System) {
    && s.mined <= |s.sent|
    && Queued(s.queue) == s.sent[s.mined..]
    && LT.PushAll(setup.limits, L.Init(setup.mode), s.sent[..s.mined]) == (s.splitter, s.stored)
    && s.bytes == LineBytes(s.stored)
    && s.lines == |s.stored|
  }

  lemma ConcatOneMore(a: seq<seq<byte>>, c: seq<byte>)
    ensures Concat(a + [c]) == Concat(a) + c
  {
    assert (a + [c])[..|a|] == a;
  }

  lemma FilteredMore(s: System, raw: seq<byte>)
    requires ReaderInv(s)
    ensures var last := |s.conns| - 1;
            var (filter, bs) := T.Run(s.filter, raw);
            var conns := s.conns[last := s.conns[last] + raw];
            && Filtered(conns) == Filtered(s.conns) + bs
            && filter == T.Run(T.Data, conns[last]).0
  {
    hide T.Run;
    var last := |s.conns| - 1;
    var conns := s.conns[last := s.conns[last] + raw];
    assert conns[..last] == s.conns[..last];
    T.RunAppend(T.Data, s.conns[last], raw);
    Assoc(Filtered(s.conns[..last]), T.Run(T.Data, s.conns[last]).1, T.Run(s.filter, raw).1);
  }

  lemma AbsorbKeeps(setup: Setup, s: System, raw: seq<byte>)
    requires ReaderInv(s) && MinerInv(setup, s)
    ensures ReaderInv(Absorb(setup, s, raw)) && MinerInv(setup, Absorb(setup, s, raw))
  {
    hide T.Run, LT.PushAll, Subsequence, Filtered, Queued, Concat;
    var bs := T.Run(s.filter, raw).1;
    FilteredMore(s, raw);
    Unit(Filtered(s.conns));
    ConcatOneMore(s.accepted, bs);
    ConcatOneMore(s.sent, bs);
    QueuedAppend(s.queue, Chunk(bs));
    SubsequenceTaken(s.sent, s.accepted, bs);
    SubsequenceMissed(s.sent, s.accepted, bs);
    assert (s.sent + [bs])[s.mined..] == s.sent[s.mined..] + [bs];
    assert (s.sent + [bs])[..s.mined] == s.sent[..s.mined];
  }

  lemma {:induction false} LineBytesAppend(a: seq<L.Line>, b: seq<L.Line>)
    ensures LineBytes(a + b) == LineBytes(a) + LineBytes(b)
  {
    if b == [] {
      assert a + b == a;
    } else {
      assert (a + b)[..|a + b| - 1] == a + b[..|b| - 1];
      LineBytesAppend(a, b[..|b| - 1]);
    }
  }

  lemma MineKeeps(setup: Setup, s: System)
    requires ReaderInv(s) && MinerInv(setup, s)
    ensures ReaderInv(Mine(setup, s)) && MinerInv(setup, Mine(setup, s))
  {
    hide T.Run, Subsequence, Filtered, Queued, Concat, L.Feed, LT.PushAll, LineBytes;
    if s.queue != [] {
      QueuedTail(s.queue);
      if s.queue[0].Chunk? {
        var bs := s.queue[0].bytes;
        assert s.sent[s.mined] == bs && s.sent[s.mined + 1..] == s.sent[s.mined..][1..];
        PushOneMore(setup.limits, L.Init(setup.mode), s.sent, s.mined);
        LineBytesAppend(s.stored, L.Feed(setup.limits, s.splitter, bs).out);
      }
    }
  }

  lemma QueuedTail(queue: seq<Msg>)
    requires queue != []
    ensures queue[0].Chunk? ==> Queued(queue) != [] && Queued(queue)[0] == queue[0].bytes
                                && Queued(queue)[1..] == Queued(queue[1..])
    ensures queue[0].TickMsg? ==> Queued(queue) == Queued(queue[1..])
  {
    Unit(Queued(queue[1..]));
  }

  lemma PushOneMore(lim: L.Limits, s: L.State, chunks: seq<seq<byte>>, k: nat)
    requires k < |chunks|
    ensures var (mid, lines) := LT.PushAll(lim, s, chunks[..k]);
            var after := L.Feed(lim, mid, chunks[k]);
            LT.PushAll(lim, s, chunks[..k + 1]) == (after.(out := []), lines + after.out)
  {
    hide L.Feed;
    assert chunks[..k + 1][..k] == chunks[..k];
  }

  lemma NextKeeps(setup: Setup, s: System, step: Step)
    requires ReaderInv(s) && MinerInv(setup, s)
    ensures ReaderInv(Next(setup, s, step)) && MinerInv(setup, Next(setup, s, step))
  {
    hide Subsequence, LT.PushAll, Queued, Concat, LineBytes, T.Run, Filtered;
    match step
    case Reconnect =>
      FilteredAnew(s.conns);
    case Read(raw) =>
      AbsorbKeeps(setup, s, raw);
    case Tick =>
      QueuedAppend(s.queue, TickMsg);
      Unit(Queued(s.queue));
    case MineOne =>
      MineKeeps(setup, s);
  }

  lemma FilteredAnew(conns: seq<seq<byte>>)
    ensures Filtered(conns + [[]]) == Filtered(conns)
    ensures T.Run(T.Data, []) == (T.Data, [])
  {
    assert (conns + [[]])[..|conns|] == conns;
    Unit(Filtered(conns));
  }

  lemma StartKeeps(setup: Setup)
    ensures ReaderInv(Started(setup)) && MinerInv(setup, Started(setup))
  {
    var s := Started(setup);
    assert s.conns[..0] == [];
    assert s.sent[..0] == [];
  }

  lemma {:induction false} RunKeeps(setup: Setup, steps: seq<Step>)
    ensures ReaderInv(Run(setup, steps)) && MinerInv(setup, Run(setup, steps))
  {
    if steps == [] {
      StartKeeps(setup);
    } else {
      hide ReaderInv, MinerInv;
      RunKeeps(setup, steps[..|steps| - 1]);
      NextKeeps(setup, Run(setup, steps[..|steps| - 1]), steps[|steps| - 1]);
    }
  }

  // ------------------------------------------------------------------ what holds at every moment

  lemma {:induction false} LineBytesAreBytes(lines: seq<L.Line>)
    ensures LineBytes(lines) == |L.Reassembled(lines)|
  {
    if lines != [] {
      LineBytesAreBytes(lines[..|lines| - 1]);
    }
  }

  /** The bytes sent are, in order, the stored lines, the open line, and the queue. */
  lemma StoredIsAPrefix(setup: Setup, s: System)
    requires setup.limits.Valid() && MinerInv(setup, s)
    ensures L.Reassembled(s.stored) + L.Pending(s.splitter) + Concat(Queued(s.queue)) == Concat(s.sent)
  {
    hide Concat, Queued, LT.PushAll, L.Feed, L.Reassembled, LT.Inv, LT.LinesOk, LT.Chained, L.Pending;
    var mined := s.sent[..s.mined];
    LT.PushAllIsFeed(setup.limits, L.Init(setup.mode), mined);
    LT.FeedExact(setup.limits, setup.mode, Concat(mined));
    assert s.sent == mined + s.sent[s.mined..];
    ConcatAppend(mined, s.sent[s.mined..]);
    PendingIgnoresOut(L.Feed(setup.limits, L.Init(setup.mode), Concat(mined)));
  }

  lemma PendingIgnoresOut(s: L.State)
    ensures L.Pending(s.(out := [])) == L.Pending(s)
  {
  }

  /**
   Over every interleaving: every byte the filter let through is in a completed line, pending
   in the splitter, queued, counted as dropped, or was refused as a failure banner; chunks are
   mined in arrival order; and with no drop the lines, the open line and the queue are exactly
   what was accepted.
   */
  lemma NothingIsLostSilently(setup: Setup, steps: seq<Step>)
    requires setup.limits.Valid()
    ensures var s := Run(setup, steps);
            && |Filtered(s.conns)|
               == s.bytes + |L.Pending(s.splitter)| + |Concat(Queued(s.queue))| + s.dropped + s.refused
            && Subsequence(s.sent, s.accepted)
            && L.Reassembled(s.stored) + L.Pending(s.splitter) + Concat(Queued(s.queue)) == Concat(s.sent)
            && (s.dropped == 0 ==>
                  L.Reassembled(s.stored) + L.Pending(s.splitter) + Concat(Queued(s.queue)) == Concat(s.accepted))
            && |s.queue| <= MINER_QUEUE
  {
    hide Run, Concat, Filtered, Queued, Subsequence, LT.PushAll, L.Reassembled;
    RunKeeps(setup, steps);
    var s := Run(setup, steps);
    StoredIsAPrefix(setup, s);
    LineBytesAreBytes(s.stored);
  }

  // ------------------------------------------------------------------ when anything is lost

  /** The console bytes a read at this point hands on. */
  ghost function Offered(s: System, raw: seq<byte>): seq<byte> {
    T.Run(s.filter, raw).1
  }

  /** Step `k` of a run is a read of console bytes. */
  ghost predicate ReadsConsole(setup: Setup, steps: seq<Step>, k: nat) {
    k < |steps| && steps[k].Read? && Offered(Run(setup, steps[..k]), steps[k].raw) != []
  }

  /** Its bytes are the port server's failure text. */
  ghost predicate ReadsBanner(setup: Setup, steps: seq<Step>, k: nat) {
    ReadsConsole(setup, steps, k) && setup.banner(Offered(Run(setup, steps[..k]), steps[k].raw))
  }

  /** Its bytes meet a full queue: all 4096 places are taken. */
  ghost predicate ReadsInVain(setup: Setup, steps: seq<Step>, k: nat) {
    && ReadsConsole(setup, steps, k) && !ReadsBanner(setup, steps, k)
    && |Run(setup, steps[..k]).queue| == 4096
  }

  /** One step: what it drops, refuses and queues, all of it or nothing. */
  lemma LastStepLoses(setup: Setup, steps: seq<Step>)
    requires steps != []
    ensures var k := |steps| - 1;
            var s, s' := Run(setup, steps[..k]), Run(setup, steps);
            && s'.dropped == s.dropped
                             + (if ReadsInVain(setup, steps, k) then |Offered(s, steps[k].raw)| else 0)
            && s'.refused == s.refused
                             + (if ReadsBanner(setup, steps, k) then |Offered(s, steps[k].raw)| else 0)
            && (steps[k].Read? ==>
                  s'.queue == s.queue + if ReadsConsole(setup, steps, k) && !ReadsBanner(setup, steps, k)
                                           && !ReadsInVain(setup, steps, k)
                                        then [Chunk(Offered(s, steps[k].raw))] else [])
            && (steps[k].Tick? ==> s'.queue == if |s.queue| < 4096 then s.queue + [TickMsg] else s.queue)
  {
    hide T.Run, L.Feed, ReaderInv, LineBytes;
    QueueFits(setup, steps[..|steps| - 1]);
  }

  lemma QueueFits(setup: Setup, steps: seq<Step>)
    ensures |Run(setup, steps).queue| <= 4096
  {
    RunKeeps(setup, steps);
    hide Filtered, Subsequence, Concat, T.Run;
  }

  /** A step of a longer run is the same step. */
  lemma SameStep(setup: Setup, steps: seq<Step>, k: nat)
    requires k + 1 < |steps|
    ensures ReadsInVain(setup, steps, k) <==> ReadsInVain(setup, steps[..|steps| - 1], k)
    ensures ReadsBanner(setup, steps, k) <==> ReadsBanner(setup, steps[..|steps| - 1], k)
  {
    hide Run, T.Run;
    assert steps[..|steps| - 1][..k] == steps[..k];
  }

  /**
   In any run bytes have been dropped if and only if some read of console bytes met a full queue,
   and refused if and only if some read was a failure banner.
   */
  lemma {:induction false} LostOnlyWhenFull(setup: Setup, steps: seq<Step>)
    ensures Run(setup, steps).dropped > 0 <==> exists k :: ReadsInVain(setup, steps, k)
    ensures Run(setup, steps).refused > 0 <==> exists k :: ReadsBanner(setup, steps, k)
  {
    if steps != [] {
      var n := |steps| - 1;
      var front := steps[..n];
      LostOnlyWhenFull(setup, front);
      LastStepLoses(setup, steps);
      hide Run, T.Run, ReadsInVain, ReadsBanner;
      forall k: nat
        ensures ReadsInVain(setup, steps, k) <==> ReadsInVain(setup, front, k) || (k == n && ReadsInVain(setup, steps, n))
        ensures ReadsBanner(setup, steps, k) <==> ReadsBanner(setup, front, k) || (k == n && ReadsBanner(setup, steps, n))
      {
        OnlyBefore(setup, front, k);
        OnlyBefore(setup, steps, k);
        if k < n {
          SameStep(setup, steps, k);
        }
      }
      if ReadsInVain(setup, steps, n) || ReadsBanner(setup, steps, n) {
        OfferedIsSomething(setup, steps, n);
      }
    }
  }

  lemma OnlyBefore(setup: Setup, steps: seq<Step>, k: nat)
    ensures ReadsInVain(setup, steps, k) || ReadsBanner(setup, steps, k) ==> k < |steps|
  {
    hide Run, T.Run;
  }

  lemma OfferedIsSomething(setup: Setup, steps: seq<Step>, k: nat)
    requires k < |steps| && (ReadsInVain(setup, steps, k) || ReadsBanner(setup, steps, k))
    ensures |Offered(Run(setup, steps[..k]), steps[k].raw)| > 0
  {
    hide Run, T.Run;
  }

  /** In particular a run in which the queue always has a place free drops nothing. */
  lemma NothingDroppedWithRoom(setup: Setup, steps: seq<Step>)
    requires forall k :: 0 <= k < |steps| ==> |Run(setup, steps[..k]).queue| < 4096
    ensures Run(setup, steps).dropped == 0
  {
    hide Run, T.Run;
    LostOnlyWhenFull(setup, steps);
    forall k: nat ensures !ReadsInVain(setup, steps, k) {
      OnlyBefore(setup, steps, k);
    }
  }

  // ------------------------------------------------------------------ end to end

  ghost function ConsoleOf(conns: seq<seq<T.Item>>): seq<byte> {
    if conns == [] then [] else ConsoleOf(conns[..|conns| - 1]) + T.Console(conns[|conns| - 1])
  }

  /** Each connection carried whole items, and may have been cut off inside one more. */
  ghost predicate Carried(conns: seq<seq<byte>>, items: seq<seq<T.Item>>) {
    && |conns| == |items|
    && forall i :: 0 <= i < |conns| ==> CutOff(conns[i], items[i])
  }

  ghost predicate CutOff(conn: seq<byte>, items: seq<T.Item>) {
    && (forall j :: 0 <= j < |items| ==> items[j].Valid())
    && T.Wire(items) <= conn
    && T.Unfinished(conn[|T.Wire(items)|..])
  }

  lemma {:induction false} FilteredIsConsole(conns: seq<seq<byte>>, items: seq<seq<T.Item>>)
    requires Carried(conns, items)
    ensures Filtered(conns) == ConsoleOf(items)
  {
    if conns != [] {
      hide T.Run, CutOff, T.Console;
      var n := |conns| - 1;
      FilteredIsConsole(conns[..n], items[..n]);
      FilteredOne(conns[n], items[n]);
    }
  }

  lemma FilteredOne(conn: seq<byte>, items: seq<T.Item>)
    requires CutOff(conn, items)
    ensures T.Run(T.Data, conn).1 == T.Console(items)
  {
    hide T.Run, T.Wire, T.Console, T.Unfinished;
    var wire := T.Wire(items);
    assert conn == wire + conn[|wire|..];
    T.RunCutOff(items, conn[|wire|..]);
  }

  /** If nothing was dropped or refused and the queue is drained, the lines are those of the console bytes. */
  ghost predicate Delivers(setup: Setup, s: System, items: seq<seq<T.Item>>) {
    Carried(s.conns, items) && s.dropped == 0 && s.refused == 0 && Queued(s.queue) == [] ==>
      Closed(s).stored == L.Split(setup.limits, setup.mode, ConsoleOf(items))
  }

  /**
   Once the queue is drained, and provided nothing was dropped or refused, the lines stored and
   the final flush are exactly the one-shot split of what the board sent, however the kernel cut
   the reads, however reader and miner interleaved, and wherever inside a telnet sequence a
   connection dropped.
   */
  lemma EndToEnd(setup: Setup, steps: seq<Step>, items: seq<seq<T.Item>>)
    requires setup.limits.Valid()
    ensures Delivers(setup, Run(setup, steps), items)
  {
    hide Run, Filtered, Subsequence, LT.PushAll, L.Split, L.Finish, Carried, ConsoleOf;
    RunKeeps(setup, steps);
    var s := Run(setup, steps);
    if Carried(s.conns, items) && s.dropped == 0 && s.refused == 0 && Queued(s.queue) == [] {
      FilteredIsConsole(s.conns, items);
      assert s.sent[..s.mined] == s.sent;
      LT.ChunkingIsInvisible(setup.limits, setup.mode, s.sent);
    }
  }

  // ------------------------------------------------------------------ why a connection starts afresh

  /** The same system, except that a new connection inherits the filter of the one before. */
  ghost function RunInheriting(setup: Setup, steps: seq<Step>): (s: System)
    ensures s.conns != []
  {
    if steps == [] then Started(setup)
    else
      var s := RunInheriting(setup, steps[..|steps| - 1]);
      var step := steps[|steps| - 1];
      if step.Reconnect? then s.(conns := s.conns + [[]]) else Next(setup, s, step)
  }

  lemma InheritMore(setup: Setup, steps: seq<Step>, step: Step)
    ensures var s := RunInheriting(setup, steps);
            RunInheriting(setup, steps + [step])
            == if step.Reconnect? then s.(conns := s.conns + [[]]) else Next(setup, s, step)
  {
    assert (steps + [step])[..|steps|] == steps;
  }

  /** A connection dropped behind an IAC, and one more byte on the next. */
  lemma AfterDrop(setup: Setup)
    ensures RunInheriting(setup, [Read([T.IAC]), Reconnect, Read([65])])
         == Started(setup).(conns := [[T.IAC], [65]])
  {
    T.RunOne(T.Data, T.IAC);
    T.RunOne(T.Iac, 65);
    hide T.Run;
    Unit([T.IAC]);
    Unit([65 as byte]);
    var s0 := Started(setup);
    var one: seq<Step> := [Read([T.IAC])];
    assert [] + one == one;
    InheritMore(setup, [], Read([T.IAC]));
    assert s0.conns[0 := [T.IAC]] == [[T.IAC]];
    var s1 := s0.(filter := T.Iac, conns := [[T.IAC]]);
    assert RunInheriting(setup, one) == s1;
    InheritMore(setup, one, Reconnect);
    assert one + [Reconnect] == [Read([T.IAC]), Reconnect];
    var s2 := s1.(conns := [[T.IAC], []]);
    assert s1.conns + [[]] == s2.conns;
    InheritMore(setup, one + [Reconnect], Read([65]));
    assert one + [Reconnect] + [Read([65])] == [Read([T.IAC]), Reconnect, Read([65])];
    assert s2.conns[1 := [65]] == [[T.IAC], [65]];
  }

  /** Without a fresh filter, whatever the setup, the first byte of a connection can be lost. */
  lemma ResetNeeded(setup: Setup) returns (steps: seq<Step>, items: seq<seq<T.Item>>)
    requires setup.limits.Valid()
    ensures !Delivers(setup, RunInheriting(setup, steps), items)
  {
    hide RunInheriting, Carried, L.Split, ConsoleOf;
    steps, items := [Read([T.IAC]), Reconnect, Read([65])], [[], [T.Byte(65)]];
    AfterDrop(setup);
    DropIsCarried();
    DropConsole();
    LT.SplitExact(setup.limits, setup.mode, [65]);
  }

  lemma DropConsole()
    ensures ConsoleOf([[], [T.Byte(65)]]) == [65]
  {
    var items: seq<seq<T.Item>> := [[], [T.Byte(65)]];
    assert items[..1] == [[]] && items[..1][..0] == [];
    T.ConsoleOne(T.Byte(65));
  }

  lemma DropIsCarried()
    ensures Carried([[T.IAC], [65]], [[], [T.Byte(65)]])
  {
    assert T.Byte(65).Valid() && T.Byte(T.IAC).Valid();
    assert [T.Byte(65)][1..] == [];
    assert [65 as byte][1..] == [] && [T.IAC][1..] == [];
    assert T.Wire([T.Byte(65)]) == [65];
    assert T.Encoded(T.Byte(T.IAC)) == [T.IAC, T.IAC];
    assert T.Encoded(T.Byte(65)) == [65];
    assert T.Unfinished([T.IAC]) by { assert [T.IAC] < T.Encoded(T.Byte(T.IAC)); }
    assert T.Unfinished([]) by { assert [] < T.Encoded(T.Byte(65)); }
    assert CutOff([T.IAC], []) by { assert [T.IAC][0..] == [T.IAC]; }
    assert CutOff([65], [T.Byte(65)]) by { assert [65 as byte][1..] == []; }
  }
}
