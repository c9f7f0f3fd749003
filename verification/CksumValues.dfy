/**
 The numbers behind the bits of `cksum`: what its generator, its bytes and its length field are
 worth, and a checksum everyone can look up.
 */
module CksumValues {
  import opened Bytes
  import opened Sequences
  import opened Cksum
  import opened Powers

  /** The number a sequence of bits spells, most significant first. */
  function Worth(bits: seq<bool>): nat
  {
    if bits == [] then 0 else 2 * Worth(bits[..|bits| - 1]) + if bits[|bits| - 1] then 1 else 0
  }

  lemma WorthMore(bits: seq<bool>, bit: bool)
    ensures Worth(bits + [bit]) == 2 * Worth(bits) + if bit then 1 else 0
  {
    assert (bits + [bit])[..|bits|] == bits;
  }

  /** Eight bits more shift the number by a byte. */
  lemma WorthByte(bits: seq<bool>, more: seq<bool>)
    requires |more| == 8
    ensures Worth(bits + more) == 256 * Worth(bits) + Worth(more)
  {
    WorthAppend(bits, more);
    assert Pow2(8) == 256 by {
      assert Pow2(4) == 16;
    }
  }

  lemma {:induction false} WorthAppend(a: seq<bool>, b: seq<bool>)
    ensures Worth(a + b) == Pow2(|b|) * Worth(a) + Worth(b)
  {
    if b == [] {
      assert a + b == a;
    } else {
      var n := |b| - 1;
      assert (a + b)[..|a + b| - 1] == a + b[..n];
      WorthAppend(a, b[..n]);
      Twice(Pow2(n), Worth(a));
    }
  }

  lemma Twice(x: nat, y: nat)
    ensures (2 * x) * y == 2 * (x * y)
  {
  }

  /** The bits of a byte spell the byte. */
  lemma BitsAreWorth(b: byte)
    ensures Worth(Bits(b)) == b as nat
  {
    assert Pow2(8) == 256 by {
      assert Pow2(4) == 16;
    }
    hide LowBits;
    LowBitsWorth(b as nat, 8);
  }

  lemma {:induction false} LowBitsWorth(n: nat, k: nat)
    requires n < Pow2(k)
    ensures Worth(LowBits(n, k)) == n
  {
    if k > 0 {
      LowBitsWorth(n / 2, k - 1);
      WorthMore(LowBits(n / 2, k - 1), n % 2 == 1);
    }
  }

  lemma WorthOfFour(b: seq<bool>)
    requires |b| == 4
    ensures Worth(b) == (if b[0] then 8 else 0) + (if b[1] then 4 else 0) + (if b[2] then 2 else 0) + (if b[3] then 1 else 0)
  {
    var none: seq<bool> := [];
    assert Worth(none) == 0;
    hide Worth;
    var b1, b2, b3 := b[..1], b[..2], b[..3];
    assert b1 == none + [b[0]] && b2 == b1 + [b[1]] && b3 == b2 + [b[2]] && b == b3 + [b[3]];
    WorthMore(none, b[0]);
    assert Worth(b1) == if b[0] then 1 else 0;
    WorthMore(b1, b[1]);
    assert Worth(b2) == (if b[0] then 2 else 0) + (if b[1] then 1 else 0);
    WorthMore(b2, b[2]);
    assert Worth(b3) == (if b[0] then 4 else 0) + (if b[1] then 2 else 0) + (if b[2] then 1 else 0);
    WorthMore(b3, b[3]);
  }

  /** Eight bits, spelled out. */
  lemma WorthOfEight(b: seq<bool>)
    requires |b| == 8
    ensures Worth(b) == (if b[0] then 128 else 0) + (if b[1] then 64 else 0) + (if b[2] then 32 else 0)
                        + (if b[3] then 16 else 0) + (if b[4] then 8 else 0) + (if b[5] then 4 else 0)
                        + (if b[6] then 2 else 0) + (if b[7] then 1 else 0)
  {
    hide Worth;
    var hi, lo := b[..4], b[4..];
    assert hi + lo == b;
    WorthNibbles(hi, lo);
    WorthOfFour(hi);
    WorthOfFour(lo);
    assert hi[0] == b[0] && hi[1] == b[1] && hi[2] == b[2] && hi[3] == b[3];
    assert lo[0] == b[4] && lo[1] == b[5] && lo[2] == b[6] && lo[3] == b[7];
  }

  lemma WorthNibbles(hi: seq<bool>, lo: seq<bool>)
    requires |lo| == 4
    ensures Worth(hi + lo) == 16 * Worth(hi) + Worth(lo)
  {
    WorthAppend(hi, lo);
    assert Pow2(4) == 16;
  }

  lemma WorthOfWord(w: Word)
    ensures Worth(w) == 0x100_0000 * Worth(w[..8]) + 0x1_0000 * Worth(w[8..16]) + 0x100 * Worth(w[16..24]) + Worth(w[24..])
  {
    hide Worth;
    WorthByte(w[..8], w[8..16]);
    assert w[..8] + w[8..16] == w[..16];
    WorthByte(w[..16], w[16..24]);
    assert w[..16] + w[16..24] == w[..24];
    WorthByte(w[..24], w[24..]);
    assert w[..24] + w[24..] == w;
  }

  /** The generator is 0x04c11db7. */
  lemma PolyIs()
    ensures Worth(POLY) == 0x04c11db7
  {
    hide Worth;
    PolyBits();
    hide POLY;
    WorthOfWord(POLY);
    WorthOfEight(POLY[..8]);
    WorthOfEight(POLY[8..16]);
    WorthOfEight(POLY[16..24]);
    WorthOfEight(POLY[24..]);
  }

  /** Its bits that are set. */
  lemma PolyBits()
    ensures forall i :: 0 <= i < 32 ==>
              POLY[i] == (i in {5, 8, 9, 15, 19, 20, 21, 23, 24, 26, 27, 29, 30, 31})
  {
  }

  /** All bits set, less the number, is the number of the complement. */
  lemma {:induction false} WorthOfNot(a: seq<bool>, b: seq<bool>)
    requires |a| == |b| && forall i :: 0 <= i < |a| ==> b[i] == !a[i]
    ensures Worth(a) + Worth(b) + 1 == Pow2(|a|)
  {
    if a != [] {
      WorthOfNot(a[..|a| - 1], b[..|b| - 1]);
    }
  }

  /** The number a little-endian sequence of bytes spells. */
  function LittleEndian(bs: seq<byte>): nat
  {
    if bs == [] then 0 else bs[0] as nat + 256 * LittleEndian(bs[1..])
  }

  /** The length field spells the length, low byte first, and ends in no zero byte. */
  lemma {:induction false} LengthIsSpelled(n: nat)
    ensures LittleEndian(LengthBytes(n)) == n
    ensures LengthBytes(n) != [] ==> LengthBytes(n)[|LengthBytes(n)| - 1] != 0
  {
    if n > 0 {
      LengthIsSpelled(n / 256);
      var rest := LengthBytes(n / 256);
      assert LengthBytes(n)[1..] == rest;
    }
  }

  /** A register holding 1 in its eighth bit comes out as the generator. */
  lemma OneTurnedOut(w: Word)
    requires forall i :: 0 <= i < 32 ==> w[i] == (i == 7)
    ensures Turns(w, 8) == POLY
  {
    TurnsSmall(w, 7);
    var x := Turns(w, 7);
    hide POLY, Turns;
    assert x[0] && forall i :: 1 <= i < 32 ==> !x[i];
    var y := Turn(x);
    assert forall i :: 0 <= i < 32 ==> y[i] == POLY[i] by {
      TurnBits(x);
    }
    assert y == POLY;
    TurnsMore(w, 7);
  }

  lemma TurnsMore(w: Word, k: nat)
    ensures Turns(w, k + 1) == Turn(Turns(w, k))
  {
  }

  /** The checksum of a single zero byte: 4215202376, the complement of the generator. */
  lemma ChecksumOfZeroByte()
    ensures Worth(Checksum([0])) == 4215202376
  {
    hide Worth, POLY, Turns, Bits;
    var data: seq<byte> := [0];
    LengthOfOne();
    assert data + [1] == [0, 1];
    FeedZeroOne();
    assert Checksum(data) == Not(POLY);
    PolyIs();
    WorthOfNot(POLY, Not(POLY));
    assert Pow2(32) == 0x1_0000_0000 by { ShiftWord(); }
  }

  lemma ShiftWord()
    ensures Pow2(32) == 0x1_0000_0000
  {
    assert Pow2(8) == 256 by {
      assert Pow2(4) == 16;
    }
    ShiftTwice(8, 8);
    ShiftTwice(16, 16);
  }

  lemma {:induction false} ShiftTwice(j: nat, k: nat)
    ensures Pow2(j + k) == Pow2(j) * Pow2(k)
  {
    if k > 0 {
      ShiftTwice(j, k - 1);
      Doubled(Pow2(j), Pow2(k - 1));
    }
  }

  lemma Doubled(x: nat, y: nat)
    ensures 2 * (x * y) == x * (2 * y)
  {
  }

  lemma LengthOfOne()
    ensures LengthBytes(1) == [1]
  {
    assert LengthBytes(1) == [1] + LengthBytes(0);
  }

  lemma BitsOfZeroAndOne()
    ensures forall i :: 0 <= i < 8 ==> !Bits(0)[i]
    ensures forall i :: 0 <= i < 8 ==> Bits(1)[i] == (i == 7)
  {
    BitsAreWorth(0);
    BitsAreWorth(1);
    WorthOfEight(Bits(0));
    WorthOfEight(Bits(1));
    hide Bits, Worth;
  }

  lemma FeedZeroOne()
    ensures Feed(ZERO, [0, 1]) == POLY
  {
    hide POLY, Turns, Bits;
    BitsOfZeroAndOne();
    var zero, one := AtTop(Bits(0)), AtTop(Bits(1));
    assert Xor(ZERO, zero) == ZERO by {
      assert forall i :: 0 <= i < 32 ==> Xor(ZERO, zero)[i] == ZERO[i];
    }
    TurnsZero(8);
    assert FeedByte(ZERO, 0) == ZERO;
    OneTurnedOut(Xor(ZERO, one));
    assert FeedByte(ZERO, 1) == POLY;
    FeedTwo(0, 1);
  }

  lemma FeedTwo(a: byte, b: byte)
    ensures Feed(ZERO, [a, b]) == FeedByte(FeedByte(ZERO, a), b)
  {
    hide FeedByte;
    var both, first := [a, b], [a];
    assert both[..1] == first && first[..0] == [];
    assert Feed(ZERO, first) == FeedByte(Feed(ZERO, []), a);
    assert Feed(ZERO, both) == FeedByte(Feed(ZERO, first), b);
  }
}
