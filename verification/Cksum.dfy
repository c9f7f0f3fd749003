/**
 POSIX `cksum` (`transfer.rs`): the shift register the source runs, proved equal to
 polynomial long division, and never blind to a change inside 32 consecutive bits.

 A 32-bit register is its bits, most significant first, so `<< 1`, `^` and `& 0x80000000`
 are the position-wise operations below.
 */
module Cksum {
  import opened Bytes
  import opened Sequences
  import opened Powers

  const CLEAR: seq<bool> := [
    false, false, false, false, false, false, false, false,
    false, false, false, false, false, false, false, false,
    false, false, false, false, false, false, false, false,
    false, false, false, false, false, false, false, false]

  type Word = w: seq<bool> | |w| == 32 witness CLEAR

  /** 0x04c11db7. */
  const POLY: Word := [
    false, false, false, false, false, true, false, false,
    true, true, false, false, false, false, false, true,
    false, false, false, true, true, true, false, true,
    true, false, true, true, false, true, true, true]

  const ZERO: Word := CLEAR

  function Xor(a: Word, b: Word): (r: Word)
    ensures forall i :: 0 <= i < 32 ==> r[i] == (a[i] != b[i])
  {
    seq(32, i requires 0 <= i < 32 => a[i] != b[i])
  }

  function Not(a: Word): (r: Word)
    ensures forall i :: 0 <= i < 32 ==> r[i] == !a[i]
  {
    seq(32, i requires 0 <= i < 32 => !a[i])
  }

  function ShiftLeft(a: Word): (r: Word)
    ensures forall i :: 0 <= i < 32 ==> r[i] == (i < 31 && a[i + 1])
  {
    a[1..] + [false]
  }

  // ------------------------------------------------------------------ the register

  /** One turn of the register: multiply by x and reduce. */
  function Turn(x: Word): Word
  {
    if x[0] then Xor(ShiftLeft(x), POLY) else ShiftLeft(x)
  }

  function Turns(x: Word, k: nat): Word
  {
    if k == 0 then x else Turn(Turns(x, k - 1))
  }

  /** The low `k` bits of a number, most significant first. */
  function LowBits(n: nat, k: nat): (r: seq<bool>)
    ensures |r| == k
  {
    if k == 0 then [] else LowBits(n / 2, k - 1) + [n % 2 == 1]
  }

  function Bits(b: byte): (r: seq<bool>)
    ensures |r| == 8
  {
    LowBits(b as nat, 8)
  }

  /** Up to 32 bits at the top of a word. */
  function AtTop(bits: seq<bool>): (w: Word)
    requires |bits| <= 32
    ensures forall i :: 0 <= i < 32 ==> w[i] == (i < |bits| && bits[i])
  {
    seq(32, i requires 0 <= i < 32 => i < |bits| && bits[i])
  }

  function FeedByte(crc: Word, b: byte): Word
  {
    Turns(Xor(crc, AtTop(Bits(b))), 8)
  }

  function Feed(crc: Word, bs: seq<byte>): Word
  {
    if bs == [] then crc else FeedByte(Feed(crc, bs[..|bs| - 1]), bs[|bs| - 1])
  }

  /** The length, least significant byte first, without leading zeros. */
  function LengthBytes(n: nat): seq<byte>
  {
    if n == 0 then [] else [(n % 256) as byte] + LengthBytes(n / 256)
  }

  function Checksum(data: seq<byte>): Word
  {
    Not(Feed(ZERO, data + LengthBytes(|data|)))
  }

  method FeedInto(crc: Word, b: byte) returns (next: Word)
    ensures next == FeedByte(crc, b)
  {
    var start := Xor(crc, AtTop(Bits(b)));
    next := start;
    for i := 0 to 8
      invariant next == Turns(start, i)
    {
      next := if next[0] then Xor(ShiftLeft(next), POLY) else ShiftLeft(next);
    }
  }

  method ComputeCksum(data: seq<byte>) returns (sum: Word)
    ensures sum == Checksum(data)
  {
    hide FeedByte;
    var crc := ZERO;
    for i := 0 to |data|
      invariant crc == Feed(ZERO, data[..i])
    {
      assert data[..i + 1][..i] == data[..i];
      crc := FeedInto(crc, data[i]);
    }
    assert data[..|data|] == data;
    var len: nat := |data|;
    ghost var sent: seq<byte> := [];
    assert data + sent == data;
    while len > 0
      invariant sent + LengthBytes(len) == LengthBytes(|data|)
      invariant crc == Feed(ZERO, data + sent)
    {
      var b := (len % 256) as byte;
      FeedOneMore(ZERO, data + sent, b);
      Assoc(data, sent, [b]);
      Assoc(sent, [b], LengthBytes(len / 256));
      crc := FeedInto(crc, b);
      sent := sent + [b];
      len := len / 256;
    }
    Unit(sent);
    sum := Not(crc);
  }

  lemma FeedOneMore(crc: Word, bs: seq<byte>, b: byte)
    ensures Feed(crc, bs + [b]) == FeedByte(Feed(crc, bs), b)
  {
    assert (bs + [b])[..|bs|] == bs;
  }

  // ------------------------------------------------------------------ algebra of the register

  lemma TurnBits(x: Word)
    ensures forall i :: 0 <= i < 32 ==> Turn(x)[i] == ((i < 31 && x[i + 1]) != (x[0] && POLY[i]))
  {
  }

  lemma TurnLinear(x: Word, y: Word)
    ensures Turn(Xor(x, y)) == Xor(Turn(x), Turn(y))
  {
    TurnBits(x);
    TurnBits(y);
    TurnBits(Xor(x, y));
    hide Turn;
    var l, r := Turn(Xor(x, y)), Xor(Turn(x), Turn(y));
    assert forall i :: 0 <= i < 32 ==> l[i] == r[i];
  }

  /** The low bit tells which way the register turned, so a turn can be undone. */
  lemma TurnInjective(x: Word, y: Word)
    requires Turn(x) == Turn(y)
    ensures x == y
  {
    TurnBits(x);
    TurnBits(y);
    hide Turn;
    assert Turn(x)[31] == x[0] && Turn(y)[31] == y[0];
    forall i | 0 <= i < 32 ensures x[i] == y[i] {
      if i > 0 {
        assert Turn(x)[i - 1] == Turn(y)[i - 1];
      }
    }
  }

  lemma {:induction false} TurnsLinear(x: Word, y: Word, k: nat)
    ensures Turns(Xor(x, y), k) == Xor(Turns(x, k), Turns(y, k))
  {
    hide Turn, Xor;
    if k > 0 {
      TurnsLinear(x, y, k - 1);
      TurnLinear(Turns(x, k - 1), Turns(y, k - 1));
    }
  }

  lemma {:induction false} TurnsInjective(x: Word, y: Word, k: nat)
    requires Turns(x, k) == Turns(y, k)
    ensures x == y
  {
    hide Turn;
    if k > 0 {
      assert Turn(Turns(x, k - 1)) == Turn(Turns(y, k - 1));
      TurnInjective(Turns(x, k - 1), Turns(y, k - 1));
      TurnsInjective(x, y, k - 1);
    }
  }

  lemma {:induction false} TurnsCommute(x: Word, k: nat)
    ensures Turns(Turn(x), k) == Turn(Turns(x, k))
  {
    hide Turn;
    if k > 0 {
      TurnsCommute(x, k - 1);
    }
  }

  /** While nothing reaches the top, turning only moves bits up. */
  lemma {:induction false} TurnsSmall(x: Word, k: nat)
    requires k <= 32 && forall i :: 0 <= i < k ==> !x[i]
    ensures forall i :: 0 <= i < 32 ==> Turns(x, k)[i] == (i + k < 32 && x[i + k])
  {
    if k > 0 {
      TurnsSmall(x, k - 1);
      assert Turns(x, k - 1)[0] == x[k - 1];
    }
  }

  // ------------------------------------------------------------------ long division

  function Low(bit: bool): (w: Word)
    ensures forall i :: 0 <= i < 32 ==> w[i] == (i == 31 && bit)
  {
    ZERO[31 := bit]
  }

  /** The remainder once these message bits, most significant first, have been divided in. */
  function Divide(r: Word, bits: seq<bool>): Word
  {
    if bits == [] then r else Xor(Turn(Divide(r, bits[..|bits| - 1])), Low(bits[|bits| - 1]))
  }

  function MessageBits(bs: seq<byte>): (bits: seq<bool>)
    ensures |bits| == 8 * |bs|
  {
    if bs == [] then [] else MessageBits(bs[..|bs| - 1]) + Bits(bs[|bs| - 1])
  }

  function Zeros(k: nat): (bits: seq<bool>)
    ensures |bits| == k
  {
    if k == 0 then [] else Zeros(k - 1) + [false]
  }

  /** The register fed one bit at a time at its top end. */
  function TopFed(c: Word, bits: seq<bool>): Word
  {
    if bits == [] then c
    else Turn(Xor(TopFed(c, bits[..|bits| - 1]), AtTop([bits[|bits| - 1]])))
  }

  lemma TopFedOneMore(c: Word, bits: seq<bool>, bit: bool)
    ensures TopFed(c, bits + [bit]) == Turn(Xor(TopFed(c, bits), AtTop([bit])))
  {
    assert (bits + [bit])[..|bits|] == bits;
  }

  /** Any run of at most 32 bits can be laid over the register at once and then turned in. */
  lemma {:induction false} TopFedAtOnce(c: Word, bits: seq<bool>)
    requires |bits| <= 32
    ensures TopFed(c, bits) == Turns(Xor(c, AtTop(bits)), |bits|)
  {
    if bits == [] {
      hide Turn;
      assert Xor(c, AtTop([])) == c;
    } else {
      hide Turn, Xor, AtTop, Zeros, TopFed;
      var n := |bits| - 1;
      var p, t := bits[..n], bits[n];
      TopFedAtOnce(c, p);
      var single := AtTop(Zeros(n) + [t]);
      LoneBit(n, t);
      assert Xor(c, AtTop(bits)) == Xor(Xor(c, AtTop(p)), single) by { LayOneMore(c, p, t); }
      TurnsLinear(Xor(c, AtTop(p)), single, n);
      assert p + [t] == bits;
      TopFedOneMore(c, p, t);
    }
  }

  lemma {:induction false} ZerosAreFalse(k: nat)
    ensures forall i :: 0 <= i < k ==> !Zeros(k)[i]
  {
    if k > 0 {
      ZerosAreFalse(k - 1);
    }
  }

  lemma LayOneMore(c: Word, p: seq<bool>, t: bool)
    requires |p| < 32
    ensures Xor(c, AtTop(p + [t])) == Xor(Xor(c, AtTop(p)), AtTop(Zeros(|p|) + [t]))
  {
    ZerosAreFalse(|p|);
    hide Zeros, Xor, AtTop;
    var long, lone := p + [t], Zeros(|p|) + [t];
    var l, r := Xor(c, AtTop(long)), Xor(Xor(c, AtTop(p)), AtTop(lone));
    forall i | 0 <= i < 32 ensures l[i] == r[i] {
      assert AtTop(long)[i] == (AtTop(p)[i] != AtTop(lone)[i]) by {
        if i < |p| {
          assert long[i] == p[i] && !lone[i];
        } else if i == |p| {
          assert long[i] == t && lone[i] == t;
        }
      }
      assert Xor(c, AtTop(p))[i] == (c[i] != AtTop(p)[i]);
    }
  }

  lemma LoneBit(n: nat, t: bool)
    requires n < 32
    ensures Turns(AtTop(Zeros(n) + [t]), n) == AtTop([t])
  {
    ZerosAreFalse(n);
    var w := AtTop(Zeros(n) + [t]);
    TurnsSmall(w, n);
    var l, r := Turns(w, n), AtTop([t]);
    assert forall i :: 0 <= i < 32 ==> l[i] == r[i];
  }

  lemma {:induction false} TopFedAppend(c: Word, a: seq<bool>, b: seq<bool>)
    ensures TopFed(c, a + b) == TopFed(TopFed(c, a), b)
  {
    if b == [] {
      assert a + b == a;
    } else {
      hide Turn;
      var n := |b| - 1;
      assert (a + b)[..|a + b| - 1] == a + b[..n];
      TopFedAppend(c, a, b[..n]);
    }
  }

  /** The byte-wise register is the bit-wise one. */
  lemma {:induction false} FeedIsTopFed(c: Word, bs: seq<byte>)
    ensures Feed(c, bs) == TopFed(c, MessageBits(bs))
  {
    if bs != [] {
      hide Turns, TopFed, Bits;
      var n := |bs| - 1;
      FeedIsTopFed(c, bs[..n]);
      TopFedAtOnce(Feed(c, bs[..n]), Bits(bs[n]));
      TopFedAppend(c, MessageBits(bs[..n]), Bits(bs[n]));
    } else {
      assert TopFed(c, []) == c;
    }
  }

  /** A bit that enters at the bottom acts at the top 31 turns later. */
  lemma BitClimbs(bit: bool)
    ensures Turns(Low(bit), 32) == Turn(AtTop([bit]))
  {
    TurnsSmall(Low(bit), 31);
    var l, r := Turns(Low(bit), 31), AtTop([bit]);
    assert forall i :: 0 <= i < 32 ==> l[i] == r[i];
    assert l == r;
  }

  /** Feeding at the top is dividing with 32 turns of delay. */
  lemma {:induction false} DivideDelayed(r: Word, bits: seq<bool>)
    ensures Turns(Divide(r, bits), 32) == TopFed(Turns(r, 32), bits)
  {
    if bits != [] {
      hide Turn, Turns;
      var n := |bits| - 1;
      var d := Divide(r, bits[..n]);
      DivideDelayed(r, bits[..n]);
      TurnsLinear(Turn(d), Low(bits[n]), 32);
      TurnsCommute(d, 32);
      BitClimbs(bits[n]);
      TurnLinear(Turns(d, 32), AtTop([bits[n]]));
    }
  }

  /** A zero bit only turns the remainder. */
  lemma DivideZero(r: Word, bits: seq<bool>)
    ensures Divide(r, bits + [false]) == Turn(Divide(r, bits))
  {
    assert (bits + [false])[..|bits|] == bits;
    var t := Turn(Divide(r, bits));
    hide Turn, Divide;
    assert forall i :: 0 <= i < 32 ==> Xor(t, Low(false))[i] == t[i];
  }

  lemma {:induction false} DivideZeros(r: Word, bits: seq<bool>, k: nat)
    ensures Divide(r, bits + Zeros(k)) == Turns(Divide(r, bits), k)
  {
    if k == 0 {
      assert bits + Zeros(0) == bits;
    } else {
      hide Turn, Divide;
      DivideZeros(r, bits, k - 1);
      DivideZero(r, bits + Zeros(k - 1));
      Assoc(bits, Zeros(k - 1), [false]);
    }
  }

  lemma TurnZero()
    ensures Turn(ZERO) == ZERO
  {
    TurnBits(ZERO);
    hide Turn;
    var z := Turn(ZERO);
    assert !ZERO[0];
    forall i | 0 <= i < 32 ensures z[i] == ZERO[i] {
    }
  }

  lemma {:induction false} TurnsZero(k: nat)
    ensures Turns(ZERO, k) == ZERO
  {
    hide Turn;
    if k > 0 {
      TurnsZero(k - 1);
      TurnZero();
    }
  }

  /**
   The POSIX definition: the complement of the remainder of the message and its length,
   followed by 32 zero bits, divided by the generator polynomial.
   */
  lemma ChecksumIsRemainder(data: seq<byte>)
    ensures Checksum(data) == Not(Divide(ZERO, MessageBits(data + LengthBytes(|data|)) + Zeros(32)))
  {
    hide Feed, Turns, Divide, TopFed;
    var bits := MessageBits(data + LengthBytes(|data|));
    FeedIsTopFed(ZERO, data + LengthBytes(|data|));
    DivideDelayed(ZERO, bits);
    TurnsZero(32);
    DivideZeros(ZERO, bits, 32);
  }

  // ------------------------------------------------------------------ what it cannot miss

  lemma {:induction false} TopFedInjective(c: Word, d: Word, bits: seq<bool>)
    requires TopFed(c, bits) == TopFed(d, bits)
    ensures c == d
  {
    if bits != [] {
      hide Turn;
      var n := |bits| - 1;
      var x, y, t := TopFed(c, bits[..n]), TopFed(d, bits[..n]), AtTop([bits[n]]);
      TurnInjective(Xor(x, t), Xor(y, t));
      XorCancel(x, y, t);
      TopFedInjective(c, d, bits[..n]);
    }
  }

  lemma XorCancel(x: Word, y: Word, t: Word)
    requires Xor(x, t) == Xor(y, t)
    ensures x == y
  {
    forall i | 0 <= i < 32 ensures x[i] == y[i] {
      assert Xor(x, t)[i] == Xor(y, t)[i];
    }
  }

  /** From one register state, different runs of at most 32 bits never lead to the same state. */
  lemma BurstDiffers(c: Word, a: seq<bool>, b: seq<bool>)
    requires |a| == |b| <= 32 && TopFed(c, a) == TopFed(c, b)
    ensures a == b
  {
    hide Turns, TopFed;
    TopFedAtOnce(c, a);
    TopFedAtOnce(c, b);
    TurnsInjective(Xor(c, AtTop(a)), Xor(c, AtTop(b)), |a|);
    forall i | 0 <= i < |a| ensures a[i] == b[i] {
      assert Xor(c, AtTop(a))[i] == Xor(c, AtTop(b))[i];
    }
  }

  /** Equal outside the window `k .. k + 32`. */
  ghost predicate EqualOutside(a: seq<bool>, b: seq<bool>, k: nat) {
    |a| == |b| && forall i :: 0 <= i < |a| && !(k <= i < k + 32) ==> a[i] == b[i]
  }

  lemma BurstSurvives(c: Word, a: seq<bool>, b: seq<bool>, k: nat)
    requires EqualOutside(a, b, k) && k <= |a| && a != b
    ensures TopFed(c, a) != TopFed(c, b)
  {
    hide TopFed;
    var e := if k + 32 <= |a| then k + 32 else |a|;
    var p, s := a[..k], a[e..];
    assert a == p + (a[k..e] + s) && b == p + (b[k..e] + s);
    TopFedAppend(c, p, a[k..e] + s);
    TopFedAppend(c, p, b[k..e] + s);
    var m := TopFed(c, p);
    TopFedAppend(m, a[k..e], s);
    TopFedAppend(m, b[k..e], s);
    if TopFed(c, a) == TopFed(c, b) {
      TopFedInjective(TopFed(m, a[k..e]), TopFed(m, b[k..e]), s);
      BurstDiffers(m, a[k..e], b[k..e]);
    }
  }

  lemma NotInjective(x: Word, y: Word)
    requires Not(x) == Not(y)
    ensures x == y
  {
    forall i | 0 <= i < 32 ensures x[i] == y[i] {
      assert Not(x)[i] == Not(y)[i];
    }
  }

  lemma {:induction false} MessageBitsAppend(a: seq<byte>, b: seq<byte>)
    ensures MessageBits(a + b) == MessageBits(a) + MessageBits(b)
  {
    if b == [] {
      assert a + b == a;
    } else {
      hide Bits;
      var n := |b| - 1;
      assert (a + b)[..|a + b| - 1] == a + b[..n];
      MessageBitsAppend(a, b[..n]);
      Assoc(MessageBits(a), MessageBits(b[..n]), Bits(b[n]));
    }
  }

  /** Two messages of one length that differ only inside 32 consecutive bits never share a checksum. */
  lemma BurstIsDetected(a: seq<byte>, b: seq<byte>, k: nat)
    requires |a| == |b| && MessageBits(a) != MessageBits(b)
    requires EqualOutside(MessageBits(a), MessageBits(b), k)
    ensures Checksum(a) != Checksum(b)
  {
    hide Feed, TopFed, Bits, MessageBits, LengthBytes;
    var len := LengthBytes(|a|);
    var x, y, z := MessageBits(a), MessageBits(b), MessageBits(len);
    MessageBitsAppend(a, len);
    MessageBitsAppend(b, len);
    FeedIsTopFed(ZERO, a + len);
    FeedIsTopFed(ZERO, b + len);
    TopFedAppend(ZERO, x, z);
    TopFedAppend(ZERO, y, z);
    var d :| 0 <= d < |x| && x[d] != y[d];
    assert k <= d;
    BurstSurvives(ZERO, x, y, k);
    if Checksum(a) == Checksum(b) {
      NotInjective(Feed(ZERO, a + len), Feed(ZERO, b + len));
      TopFedInjective(TopFed(ZERO, x), TopFed(ZERO, y), z);
    }
  }

  lemma {:induction false} LowBitsInjective(m: nat, n: nat, k: nat)
    requires m < Pow2(k) && n < Pow2(k) && LowBits(m, k) == LowBits(n, k)
    ensures m == n
  {
    if k > 0 {
      var x, y := LowBits(m / 2, k - 1), LowBits(n / 2, k - 1);
      assert LowBits(m, k)[..k - 1] == x && LowBits(n, k)[..k - 1] == y;
      assert LowBits(m, k)[k - 1] == LowBits(n, k)[k - 1];
      LowBitsInjective(m / 2, n / 2, k - 1);
    }
  }

  lemma BitsInjective(a: byte, b: byte)
    requires Bits(a) == Bits(b)
    ensures a == b
  {
    assert Pow2(8) == 256 by {
      assert Pow2(4) == 16;
    }
    hide LowBits;
    LowBitsInjective(a as nat, b as nat, 8);
  }

  lemma {:induction false} MessageBitsAt(bs: seq<byte>, j: nat)
    requires j < |bs|
    ensures MessageBits(bs)[8 * j..8 * j + 8] == Bits(bs[j])
  {
    hide Bits;
    var n := |bs| - 1;
    var head := MessageBits(bs[..n]);
    if j < n {
      MessageBitsAt(bs[..n], j);
      assert MessageBits(bs)[8 * j..8 * j + 8] == head[8 * j..8 * j + 8];
    }
  }

  /** In particular a change inside four consecutive bytes always shows. */
  lemma FourByteWindowIsDetected(a: seq<byte>, b: seq<byte>, k: nat)
    requires |a| == |b| && a != b
    requires forall i :: 0 <= i < |a| && !(k <= i < k + 4) ==> a[i] == b[i]
    ensures Checksum(a) != Checksum(b)
  {
    hide Checksum, Bits, MessageBits;
    var x, y := MessageBits(a), MessageBits(b);
    var d :| 0 <= d < |a| && a[d] != b[d];
    MessageBitsAt(a, d);
    MessageBitsAt(b, d);
    if x == y {
      BitsInjective(a[d], b[d]);
    }
    forall i | 0 <= i < |x| && !(8 * k <= i < 8 * k + 32) ensures x[i] == y[i] {
      var j := i / 8;
      MessageBitsAt(a, j);
      MessageBitsAt(b, j);
      assert x[i] == x[8 * j..8 * j + 8][i - 8 * j];
      assert y[i] == y[8 * j..8 * j + 8][i - 8 * j];
    }
    BurstIsDetected(a, b, 8 * k);
  }
}
