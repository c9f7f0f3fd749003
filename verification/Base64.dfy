/**
 Base64 as a console transfer uses it (`transfer.rs`, section 4 of RFC 4648): the encoder,
 the decoder with its unmasked 32-bit accumulator, the chunks of a push and the
 whitespace of a pull.

 Shifts and ors of disjoint bits are products and sums; the accumulator wraps at 2^32.
 */
module Base64 {
  import opened Bytes
  import opened Sequences
  import opened Options
  import opened Text
  import opened Powers

  const PAD: byte := 61
  const CHUNK_BYTES: nat := 512
  const U32: nat := 0x1_0000_0000

  /** Table 1 of RFC 4648: A-Z, a-z, 0-9, '+', '/'. */
  function Symbol(v: nat): byte
    requires v < 64
  {
    if v < 26 then (65 + v) as byte
    else if v < 52 then (97 + (v - 26)) as byte
    else if v < 62 then (48 + (v - 52)) as byte
    else if v == 62 then 43 else 47
  }

  /** The value of a symbol, as the decoder recognises it. */
  function Value(c: byte): Option<nat>
  {
    if 65 <= c <= 90 then Some(c as nat - 65)
    else if 97 <= c <= 122 then Some(c as nat - 97 + 26)
    else if 48 <= c <= 57 then Some(c as nat - 48 + 52)
    else if c == 43 then Some(62)
    else if c == 47 then Some(63)
    else None
  }

  /** The four symbols of up to three bytes; missing bytes count as zero. */
  function Group(a: byte, b: byte, c: byte): (g: seq<byte>)
    ensures |g| == 4
  {
    var n := a as nat * 0x1_0000 + b as nat * 0x100 + c as nat;
    [Symbol(n / 0x4_0000 % 64), Symbol(n / 0x1000 % 64), Symbol(n / 0x40 % 64), Symbol(n % 64)]
  }

  function Min3(n: nat): nat
  {
    if n < 3 then n else 3
  }

  /** One chunk of one to three bytes, padded to four characters. */
  function Quad(chunk: seq<byte>): seq<byte>
    requires 1 <= |chunk| <= 3
  {
    var g := Group(chunk[0], if |chunk| > 1 then chunk[1] else 0, if |chunk| > 2 then chunk[2] else 0);
    [g[0], g[1], if |chunk| > 1 then g[2] else PAD, if |chunk| > 2 then g[3] else PAD]
  }

  function Encoded(data: seq<byte>): seq<byte>
  {
    if data == [] then []
    else Quad(data[..Min3(|data|)]) + Encoded(data[Min3(|data|)..])
  }

  lemma EncodedFrom(data: seq<byte>, i: nat)
    requires i < |data|
    ensures var len := Min3(|data| - i);
            Encoded(data[i..]) == Quad(data[i..i + len]) + Encoded(data[i + len..])
  {
    hide Quad;
    var rest, len := data[i..], Min3(|data| - i);
    assert rest[..len] == data[i..i + len] && rest[len..] == data[i + len..];
  }

  method Encode(data: seq<byte>) returns (out: seq<byte>)
    ensures out == Encoded(data)
  {
    hide Group, Encoded;
    out := [];
    var i := 0;
    assert data[0..] == data;
    Unit(Encoded(data));
    while i < |data|
      invariant 0 <= i <= |data|
      invariant out + Encoded(data[i..]) == Encoded(data)
    {
      var len := Min3(|data| - i);
      var chunk := data[i..i + len];
      var g := Group(chunk[0], if len > 1 then chunk[1] else 0, if len > 2 then chunk[2] else 0);
      var four := [g[0], g[1], if len > 1 then g[2] else PAD, if len > 2 then g[3] else PAD];
      assert four == Quad(chunk);
      EncodedFrom(data, i);
      Assoc(out, four, Encoded(data[i + len..]));
      out := out + four;
      i := i + len;
    }
    NothingEncoded(data[i..]);
    Unit(out);
  }

  lemma NothingEncoded(s: seq<byte>)
    requires s == []
    ensures Encoded(s) == []
  {
  }

  /** What the decoder makes of the rest of its input. */
  function DecodeFrom(acc: nat, bits: nat, s: seq<byte>): Option<seq<byte>>
    requires bits < 8
    decreases |s|
  {
    if s == [] || s[0] == PAD then Some([])
    else
      match Value(s[0])
      case None => None
      case Some(v) =>
        var acc' := acc * 64 % U32 + v;
        if bits + 6 < 8 then DecodeFrom(acc', bits + 6, s[1..])
        else
          match DecodeFrom(acc', bits - 2, s[1..])
          case None => None
          case Some(rest) => Some([Out(acc', bits - 2)] + rest)
  }

  /** `(acc >> bits) as u8`. */
  function Out(acc: nat, bits: nat): byte
  {
    (acc / Pow2(bits) % 256) as byte
  }

  function Decoded(s: seq<byte>): Option<seq<byte>>
  {
    DecodeFrom(0, 0, s)
  }

  method Decode(s: seq<byte>) returns (r: Option<seq<byte>>)
    ensures r == Decoded(s)
  {
    var out: seq<byte> := [];
    var acc: nat := 0;
    var bits: nat := 0;
    var i := 0;
    assert s[0..] == s;
    if Decoded(s).Some? {
      Unit(Decoded(s).value);
    }
    while i < |s| && s[i] != PAD
      invariant 0 <= i <= |s| && bits < 8
      invariant Decoded(s) == Prefixed(out, DecodeFrom(acc, bits, s[i..]))
    {
      var v := Value(s[i]);
      if v.None? {
        return None;
      }
      ghost var rest := s[i..];
      assert rest[1..] == s[i + 1..];
      acc := acc * 64 % U32 + v.value;
      bits := bits + 6;
      if bits >= 8 {
        bits := bits - 8;
        var b := (acc / Pow2(bits) % 256) as byte;
        PrefixedMore(out, b, DecodeFrom(acc, bits, s[i + 1..]));
        out := out + [b];
      }
      i := i + 1;
    }
    Unit(out);
    r := Some(out);
  }

  ghost function Prefixed(out: seq<byte>, rest: Option<seq<byte>>): Option<seq<byte>> {
    if rest.None? then None else Some(out + rest.value)
  }

  lemma PrefixedMore(out: seq<byte>, b: byte, rest: Option<seq<byte>>)
    ensures Prefixed(out + [b], rest) == Prefixed(out, Prefixed([b], rest))
  {
    if rest.Some? {
      Assoc(out, [b], rest.value);
    }
  }

  // ------------------------------------------------------------------ round trip

  lemma ValueOfSymbol(v: nat)
    requires v < 64
    ensures Value(Symbol(v)) == Some(v) && Symbol(v) != PAD
  {
  }

  /** The accumulator is never masked, but its low twelve bits are the last two symbols. */
  lemma LowTwelve(acc: nat, u: nat, v: nat)
    requires u < 64 && v < 64
    ensures (acc * 64 % U32 + u) * 64 % U32 % 4096 == u * 64
    ensures ((acc * 64 % U32 + u) * 64 % U32 + v) % 4096 == u * 64 + v
  {
    var x := acc * 64 % U32 + u;
    WrapKeeps(acc * 64, 64);
    DivMod(acc * 64, 64, acc, 0);
    var k := acc * 64 % U32 / 64;
    assert x == 64 * k + u;
    WrapKeeps(x * 64, 4096);
    DivMod(x * 64, 4096, k, u * 64);
    var y := x * 64 % U32;
    DivMod(y + v, 4096, y / 4096, u * 64 + v);
  }

  /** Wrapping at 2^32 keeps the value modulo 64 and modulo 4096. */
  lemma WrapKeeps(x: nat, d: nat)
    requires d == 64 || d == 4096
    ensures x % U32 % d == x % d
  {
    var w := x / U32;
    assert x == w * U32 + x % U32;
    if d == 64 {
      assert U32 == 0x400_0000 * 64;
      DivMod(x, 64, w * 0x400_0000 + x % U32 / 64, x % U32 % 64);
    } else {
      assert U32 == 0x10_0000 * 4096;
      DivMod(x, 4096, w * 0x10_0000 + x % U32 / 4096, x % U32 % 4096);
    }
  }

  lemma DivMod(x: nat, d: nat, q: nat, r: nat)
    requires r < d && x == q * d + r
    ensures x / d == q && x % d == r
  {
    var p := x / d;
    assert x == p * d + x % d;
    if p < q {
      OneMoreTime(p, q, d);
    } else if q < p {
      OneMoreTime(q, p, d);
    }
  }

  lemma {:induction false} OneMoreTime(p: nat, q: nat, d: nat)
    requires p < q
    ensures p * d + d <= q * d
  {
    assert q * d == (q - 1) * d + d;
    if p < q - 1 {
      OneMoreTime(p, q - 1, d);
    }
  }

  lemma SixBitFields(p: nat, q: nat, r: nat, t: nat)
    requires p < 64 && q < 64 && r < 64 && t < 64
    ensures var n := p * 0x4_0000 + q * 0x1000 + r * 0x40 + t;
            n / 0x4_0000 % 64 == p && n / 0x1000 % 64 == q && n / 0x40 % 64 == r && n % 64 == t
  {
    var n := p * 0x4_0000 + q * 0x1000 + r * 0x40 + t;
    DivMod(n, 0x4_0000, p, q * 0x1000 + r * 0x40 + t);
    DivMod(n, 0x1000, p * 64 + q, r * 0x40 + t);
    DivMod(p * 64 + q, 64, p, q);
    DivMod(n, 0x40, p * 4096 + q * 64 + r, t);
    DivMod(p * 4096 + q * 64 + r, 64, p * 64 + q, r);
  }

  lemma Sextets(a: byte, b: byte, c: byte)
    ensures Group(a, b, c) == [Symbol(a as nat / 4), Symbol(a as nat % 4 * 16 + b as nat / 16),
                               Symbol(b as nat % 16 * 4 + c as nat / 64), Symbol(c as nat % 64)]
  {
    hide Symbol;
    var p, q := a as nat / 4, a as nat % 4 * 16 + b as nat / 16;
    var r, t := b as nat % 16 * 4 + c as nat / 64, c as nat % 64;
    SixBitFields(p, q, r, t);
    assert a as nat * 0x1_0000 + b as nat * 0x100 + c as nat
        == p * 0x4_0000 + q * 0x1000 + r * 0x40 + t;
  }

  /** The accumulator after one more symbol. */
  ghost function Push(acc: nat, v: nat): nat {
    acc * 64 % U32 + v
  }

  lemma SmallPowers()
    ensures Pow2(0) == 1 && Pow2(2) == 4 && Pow2(4) == 16
  {
    assert Pow2(1) == 2 && Pow2(3) == 8;
  }

  /** What the decoder reads off when the last two symbols were `u` and `v`. */
  lemma OutOf(acc: nat, u: nat, v: nat)
    requires u < 64 && v < 64 && acc % 4096 == u * 64 + v
    ensures Out(acc, 4) as nat == u * 4 + v / 16
    ensures Out(acc, 2) as nat == u % 16 * 16 + v / 4
    ensures Out(acc, 0) as nat == u % 4 * 64 + v
  {
    SmallPowers();
    var q := acc / 4096;
    DivMod(acc, 16, q * 256 + u * 4 + v / 16, v % 16);
    DivMod(q * 256 + u * 4 + v / 16, 256, q, u * 4 + v / 16);
    DivMod(acc, 4, q * 1024 + u * 16 + v / 4, v % 4);
    DivMod(q * 1024 + u * 16 + v / 4, 256, q * 4 + u / 16, u % 16 * 16 + v / 4);
    DivMod(acc, 256, q * 16 + u / 4, u % 4 * 64 + v);
  }

  lemma DecodeSymbol(acc: nat, bits: nat, v: nat, rest: seq<byte>)
    requires bits < 8 && v < 64
    ensures DecodeFrom(acc, bits, [Symbol(v)] + rest)
         == if bits + 6 < 8 then DecodeFrom(Push(acc, v), bits + 6, rest)
            else Prefixed([Out(Push(acc, v), bits - 2)], DecodeFrom(Push(acc, v), bits - 2, rest))
  {
    ValueOfSymbol(v);
    assert ([Symbol(v)] + rest)[1..] == rest;
  }

  /** Two symbols give the first byte, whatever the accumulator held. */
  lemma DecodeFirst(acc: nat, a: byte, u: nat, rest: seq<byte>)
    requires u < 16
    ensures var x := Push(Push(acc, a as nat / 4), a as nat % 4 * 16 + u);
            && DecodeFrom(acc, 0, [Symbol(a as nat / 4)] + ([Symbol(a as nat % 4 * 16 + u)] + rest))
               == Prefixed([a], DecodeFrom(x, 4, rest))
  {
    hide DecodeFrom, Out, Symbol, Prefixed;
    var v, w := a as nat / 4, a as nat % 4 * 16 + u;
    DivMod(w, 16, a as nat % 4, u);
    DecodeSymbol(acc, 0, v, [Symbol(w)] + rest);
    DecodeSymbol(Push(acc, v), 6, w, rest);
    LowTwelve(acc, v, w);
    OutOf(Push(Push(acc, v), w), v, w);
  }

  /** The next symbol gives the second byte. */
  lemma DecodeSecond(acc: nat, t: nat, b: byte, u: nat, rest: seq<byte>)
    requires t < 4 && u < 4
    ensures var x := Push(acc, t * 16 + b as nat / 16);
            var y := Push(x, b as nat % 16 * 4 + u);
            && DecodeFrom(x, 4, [Symbol(b as nat % 16 * 4 + u)] + rest) == Prefixed([b], DecodeFrom(y, 2, rest))
  {
    var v, w := t * 16 + b as nat / 16, b as nat % 16 * 4 + u;
    hide DecodeFrom;
    DivMod(v, 16, t, b as nat / 16);
    DivMod(w, 4, b as nat % 16, u);
    hide Out;
    DecodeSymbol(Push(acc, v), 4, w, rest);
    LowTwelve(acc, v, w);
    OutOf(Push(Push(acc, v), w), v, w);
  }

  /** And the last one the third. */
  lemma DecodeThird(acc: nat, t: nat, c: byte, rest: seq<byte>)
    requires t < 16
    ensures var x := Push(acc, t * 4 + c as nat / 64);
            var y := Push(x, c as nat % 64);
            && DecodeFrom(x, 2, [Symbol(c as nat % 64)] + rest) == Prefixed([c], DecodeFrom(y, 0, rest))
  {
    var v, w := t * 4 + c as nat / 64, c as nat % 64;
    hide DecodeFrom;
    DivMod(v, 4, t, c as nat / 64);
    hide Out;
    DecodeSymbol(Push(acc, v), 2, w, rest);
    LowTwelve(acc, v, w);
    OutOf(Push(Push(acc, v), w), v, w);
  }

  ghost predicate GivesBack(data: seq<byte>) {
    forall acc: nat :: DecodeFrom(acc, 0, Encoded(data)) == Some(data)
  }

  lemma FourThen(p: byte, q: byte, r: byte, s: byte, rest: seq<byte>)
    ensures [p, q, r, s] + rest == [p] + ([q] + ([r] + ([s] + rest)))
  {
  }

  lemma ThreePrefixed(a: byte, b: byte, c: byte, tail: seq<byte>)
    ensures Prefixed([a], Prefixed([b], Prefixed([c], Some(tail)))) == Some([a, b, c] + tail)
  {
    assert [a] + ([b] + ([c] + tail)) == [a, b, c] + tail;
  }

  lemma GroupGivesBack(acc: nat, a: byte, b: byte, c: byte, rest: seq<byte>, tail: seq<byte>)
    requires forall x: nat :: DecodeFrom(x, 0, rest) == Some(tail)
    ensures DecodeFrom(acc, 0, Group(a, b, c) + rest) == Some([a, b, c] + tail)
  {
    hide DecodeFrom, Group, Symbol, Push, Prefixed;
    Sextets(a, b, c);
    var s0, s1 := Symbol(a as nat / 4), Symbol(a as nat % 4 * 16 + b as nat / 16);
    var s2, s3 := Symbol(b as nat % 16 * 4 + c as nat / 64), Symbol(c as nat % 64);
    var x := Push(acc, a as nat / 4);
    var y := Push(x, a as nat % 4 * 16 + b as nat / 16);
    FourThen(s0, s1, s2, s3, rest);
    DecodeFirst(acc, a, b as nat / 16, [s2] + ([s3] + rest));
    DecodeSecond(x, a as nat % 4, b, c as nat / 64, [s3] + rest);
    DecodeThird(y, b as nat % 16, c, rest);
    ThreePrefixed(a, b, c, tail);
  }

  lemma PadEnds(acc: nat, bits: nat, rest: seq<byte>)
    requires bits < 8
    ensures DecodeFrom(acc, bits, [PAD] + rest) == Some([])
  {
  }

  lemma OneGivesBack(acc: nat, a: byte)
    ensures DecodeFrom(acc, 0, Quad([a])) == Some([a])
  {
    Sextets(a, 0, 0);
    var x := Push(Push(acc, a as nat / 4), a as nat % 4 * 16);
    hide DecodeFrom, Group, Symbol, Push;
    DecodeFirst(acc, a, 0, [PAD, PAD]);
    PadEnds(x, 4, [PAD]);
    assert [PAD] + [PAD] == [PAD, PAD];
    Unit([a]);
    assert Quad([a]) == [Symbol(a as nat / 4)] + ([Symbol(a as nat % 4 * 16)] + [PAD, PAD]);
  }

  lemma TwoGiveBack(acc: nat, a: byte, b: byte)
    ensures DecodeFrom(acc, 0, Quad([a, b])) == Some([a, b])
  {
    hide DecodeFrom, Group, Symbol, Push, Prefixed;
    Sextets(a, b, 0);
    var s0, s1 := Symbol(a as nat / 4), Symbol(a as nat % 4 * 16 + b as nat / 16);
    var s2 := Symbol(b as nat % 16 * 4);
    var x := Push(acc, a as nat / 4);
    var y := Push(x, a as nat % 4 * 16 + b as nat / 16);
    DecodeFirst(acc, a, b as nat / 16, [s2] + [PAD]);
    DecodeSecond(x, a as nat % 4, b, 0, [PAD]);
    PadEnds(Push(y, b as nat % 16 * 4), 2, []);
    Unit([PAD]);
    TwoThenPad(a, b, s0, s1, s2);
    TwoPrefixed(a, b);
  }

  lemma TwoThenPad(a: byte, b: byte, s0: byte, s1: byte, s2: byte)
    requires Group(a, b, 0)[..3] == [s0, s1, s2]
    ensures Quad([a, b]) == [s0] + ([s1] + ([s2] + [PAD]))
  {
    hide Group;
  }

  lemma TwoPrefixed(a: byte, b: byte)
    ensures Prefixed([a], Prefixed([b], Some([]))) == Some([a, b])
  {
    assert [a] + ([b] + []) == [a, b];
  }

  lemma {:induction false} EncodedGivesBack(data: seq<byte>)
    ensures GivesBack(data)
  {
    if |data| == 0 {
    } else if |data| < 3 {
      assert data[..|data|] == data;
      assert Quad(data) + Encoded(data[|data|..]) == Quad(data);
      forall acc: nat ensures DecodeFrom(acc, 0, Encoded(data)) == Some(data) {
        if |data| == 1 {
          assert data == [data[0]];
          OneGivesBack(acc, data[0]);
        } else {
          assert data == [data[0], data[1]];
          TwoGiveBack(acc, data[0], data[1]);
        }
      }
    } else {
      EncodedGivesBack(data[3..]);
      hide Group, DecodeFrom;
      var a, b, c := data[0], data[1], data[2];
      assert data[..3] == [a, b, c];
      assert Quad([a, b, c]) == Group(a, b, c);
      assert [a, b, c] + data[3..] == data;
      forall acc: nat ensures DecodeFrom(acc, 0, Encoded(data)) == Some(data) {
        GroupGivesBack(acc, a, b, c, Encoded(data[3..]), data[3..]);
      }
    }
  }

  /** Decoding an encoding gives the bytes back, for every byte string. */
  lemma RoundTrip(data: seq<byte>)
    ensures Decoded(Encoded(data)) == Some(data)
  {
    EncodedGivesBack(data);
  }

  /** A test vector of section 10 of RFC 4648: "fooba". */
  lemma RfcFooba()
    ensures Encoded([102, 111, 111, 98, 97]) == [90, 109, 57, 118, 89, 109, 69, 61]
  {
    assert Group(102, 111, 111) == [90, 109, 57, 118];
    assert Group(98, 97, 0) == [89, 109, 69, 65];
    hide Group;
    var five: seq<byte> := [102, 111, 111, 98, 97];
    assert five[..3] == [102, 111, 111] && five[3..] == [98, 97] && [98, 97][..2] == [98, 97];
  }

  /** And the next one: "foobar". */
  lemma RfcFoobar()
    ensures Encoded([102, 111, 111, 98, 97, 114]) == [90, 109, 57, 118, 89, 109, 70, 121]
  {
    assert Group(102, 111, 111) == [90, 109, 57, 118];
    assert Group(98, 97, 114) == [89, 109, 70, 121];
    hide Group;
    var six: seq<byte> := [102, 111, 111, 98, 97, 114];
    assert six[..3] == [102, 111, 111] && six[3..] == [98, 97, 114] && [98, 97, 114][..3] == [98, 97, 114];
  }

  // ------------------------------------------------------------------ when decoding fails

  /** The input up to its first pad. */
  function BeforePad(s: seq<byte>): seq<byte>
  {
    if s == [] || s[0] == PAD then [] else [s[0]] + BeforePad(s[1..])
  }

  ghost predicate AllSymbols(s: seq<byte>) {
    forall i :: 0 <= i < |s| ==> Value(s[i]).Some?
  }

  /** Decoding fails exactly when something before the first pad is outside the alphabet. */
  lemma {:induction false} DecodeFailsIff(acc: nat, bits: nat, s: seq<byte>)
    requires bits < 8
    ensures DecodeFrom(acc, bits, s).None? <==> !AllSymbols(BeforePad(s))
    decreases |s|
  {
    if s != [] && s[0] != PAD {
      AllSymbolsCons(s[0], BeforePad(s[1..]));
      if Value(s[0]).Some? {
        DecodeFailsIff(Push(acc, Value(s[0]).value), if bits + 6 < 8 then bits + 6 else bits - 2, s[1..]);
      }
      hide AllSymbols;
    }
  }

  lemma AllSymbolsCons(x: byte, rest: seq<byte>)
    ensures AllSymbols([x] + rest) <==> Value(x).Some? && AllSymbols(rest)
  {
    hide Value;
    var s := [x] + rest;
    assert s[0] == x;
    assert forall i :: 0 <= i < |rest| ==> s[i + 1] == rest[i];
    if Value(x).Some? && AllSymbols(rest) {
      forall i | 0 <= i < |s| ensures Value(s[i]).Some? {
        assert i > 0 ==> s[i] == rest[i - 1];
      }
    }
  }

  const CAPITALS := "ABCDEFGHIJKLMNOPQRSTUVWXYZ"
  const SMALL := "abcdefghijklmnopqrstuvwxyz"
  const ALPHABET := CAPITALS + SMALL + "0123456789+/"

  /** The symbols are those of Table 1 of RFC 4648, in its order. */
  lemma SymbolIs(v: nat)
    requires v < 64
    ensures |ALPHABET| == 64 && Symbol(v) as int == ALPHABET[v] as int
  {
    assert |CAPITALS| == 26 && forall i :: 0 <= i < 26 ==> CAPITALS[i] as int == 65 + i;
    assert |SMALL| == 26 && forall i :: 0 <= i < 26 ==> SMALL[i] as int == 97 + i;
    var digits := "0123456789+/";
    assert |digits| == 12 && digits[10] == '+' && digits[11] == '/';
    assert forall i :: 0 <= i < 10 ==> digits[i] as int == 48 + i;
    hide CAPITALS, SMALL;
    assert ALPHABET[v] == if v < 26 then CAPITALS[v] else if v < 52 then SMALL[v - 26] else digits[v - 52];
  }

  /** The decoder takes exactly those symbols. */
  lemma ValueIff(c: byte)
    ensures Value(c).Some? <==> exists v :: 0 <= v < 64 && Symbol(v) == c
    ensures Value(c).Some? ==> Value(c).value < 64 && Symbol(Value(c).value) == c
  {
    if Value(c).Some? {
      assert 0 <= Value(c).value < 64 && Symbol(Value(c).value) == c;
    }
    if v :| 0 <= v < 64 && Symbol(v) == c {
      ValueOfSymbol(v);
    }
  }

  /** A byte that is neither a symbol nor a pad, with no pad before it. */
  ghost predicate ForeignAt(s: seq<byte>, i: nat) {
    && i < |s| && (forall v :: 0 <= v < 64 ==> Symbol(v) != s[i])
    && forall j :: 0 <= j <= i ==> s[j] != 61
  }

  /** Decoding fails exactly when a byte before the first pad is no symbol of the alphabet. */
  lemma {:induction false} ForeignIff(s: seq<byte>)
    ensures AllSymbols(BeforePad(s)) <==> !exists i: nat :: ForeignAt(s, i)
  {
    hide Symbol, Value;
    if s == [] || s[0] == PAD {
    } else {
      ForeignIff(s[1..]);
      AllSymbolsCons(s[0], BeforePad(s[1..]));
      ValueIff(s[0]);
      forall i: nat ensures ForeignAt(s, i) <==> (i == 0 && Value(s[0]).None?) || (i > 0 && ForeignAt(s[1..], i - 1)) {
        ForeignShift(s, i);
      }
      assert ForeignAt(s, 0) <==> Value(s[0]).None?;
      hide AllSymbols, ForeignAt;
      if i: nat :| ForeignAt(s[1..], i) {
        assert ForeignAt(s, i + 1);
      }
    }
  }

  lemma ForeignShift(s: seq<byte>, i: nat)
    requires s != [] && s[0] != PAD
    ensures ForeignAt(s, i) <==> (i == 0 && Value(s[0]).None?) || (i > 0 && ForeignAt(s[1..], i - 1))
  {
    hide Symbol, Value;
    ValueIff(s[0]);
    if i > 0 {
      if ForeignAt(s, i) {
        forall j | 0 <= j <= i - 1 ensures s[1..][j] != 61 {
          assert s[j + 1] != 61;
        }
      }
      if ForeignAt(s[1..], i - 1) {
        forall j | 0 <= j <= i ensures s[j] != 61 {
          assert j > 0 ==> s[1..][j - 1] != 61;
        }
      }
    }
  }

  lemma DecodeFailsExactly(s: seq<byte>)
    ensures Decoded(s) == None <==> exists i: nat :: ForeignAt(s, i)
  {
    DecodeFailsIff(0, 0, s);
    ForeignIff(s);
    hide DecodeFrom, AllSymbols, BeforePad, ForeignAt;
  }

  // ------------------------------------------------------------------ a push

  /** The payloads of a push: pieces of at most `n` bytes. */
  function Chunks(s: seq<byte>, n: nat): seq<seq<byte>>
    requires n > 0
  {
    if s == [] then []
    else if |s| <= n then [s]
    else [s[..n]] + Chunks(s[n..], n)
  }

  lemma ConcatOne(s: seq<byte>)
    ensures Concat([s]) == s
  {
    assert [s][..0] == [];
    Unit(s);
  }

  lemma {:induction false} ChunksConcat(s: seq<byte>, n: nat)
    requires n > 0
    ensures Concat(Chunks(s, n)) == s
  {
    if s != [] {
      if |s| <= n {
        ConcatOne(s);
      } else {
        ChunksConcat(s[n..], n);
        ConcatAppend([s[..n]], Chunks(s[n..], n));
        ConcatOne(s[..n]);
        hide Concat;
        assert s[..n] + s[n..] == s;
      }
    }
  }

  lemma {:induction false} ChunkSizes(s: seq<byte>, n: nat)
    requires n > 0
    ensures forall c :: c in Chunks(s, n) ==> 1 <= |c| <= n
    ensures forall i :: 0 <= i < |Chunks(s, n)| - 1 ==> |Chunks(s, n)[i]| == n
  {
    if |s| > n {
      ChunkSizes(s[n..], n);
    }
  }

  /** The chunk loop of a push plan. */
  method PlanChunks(data: seq<byte>) returns (chunks: seq<seq<byte>>)
    ensures chunks == Chunks(Encoded(data), CHUNK_BYTES)
  {
    var s := Encode(data);
    chunks := [];
    var i := 0;
    while i < |s|
      invariant 0 <= i <= |s|
      invariant chunks + Chunks(s[i..], CHUNK_BYTES) == Chunks(s, CHUNK_BYTES)
    {
      ghost var rest := s[i..];
      var e := if |s| - i <= CHUNK_BYTES then |s| else i + CHUNK_BYTES;
      var piece := s[i..e];
      assert Chunks(rest, CHUNK_BYTES) == [piece] + Chunks(s[e..], CHUNK_BYTES) by {
        if |rest| <= CHUNK_BYTES {
          assert piece == rest;
          assert [rest] + [] == [rest];
        } else {
          assert rest[..CHUNK_BYTES] == piece && rest[CHUNK_BYTES..] == s[e..];
        }
      }
      assert chunks + ([piece] + Chunks(s[e..], CHUNK_BYTES))
          == chunks + [piece] + Chunks(s[e..], CHUNK_BYTES);
      chunks := chunks + [piece];
      i := e;
    }
    assert chunks + [] == chunks;
  }

  /** The payloads of a push, put end to end, decode to the file, and each fits a console line. */
  lemma PayloadsDecode(data: seq<byte>)
    ensures Decoded(Concat(Chunks(Encoded(data), CHUNK_BYTES))) == Some(data)
    ensures forall c :: c in Chunks(Encoded(data), CHUNK_BYTES) ==> 1 <= |c| <= 512
    ensures var chunks := Chunks(Encoded(data), CHUNK_BYTES);
            forall i :: 0 <= i < |chunks| - 1 ==> |chunks[i]| == 512
  {
    ChunkSizes(Encoded(data), CHUNK_BYTES);
    ChunksConcat(Encoded(data), CHUNK_BYTES);
    RoundTrip(data);
  }

  // ------------------------------------------------------------------ a pull

  /** Bytes, all ASCII in what is printed here, as text. */
  function Printed(s: seq<byte>): (text: string)
    ensures |text| == |s|
  {
    seq(|s|, i requires 0 <= i < |s| => s[i] as char)
  }

  /** The bytes of a text. UTF-8 spells anything beyond ASCII with bytes foreign to base64; 255 stands for them. */
  function Spelled(text: string): (s: seq<byte>)
    ensures |s| == |text|
  {
    seq(|text|, i requires 0 <= i < |text| => if text[i] as int < 128 then text[i] as int as byte else 255)
  }

  function Cleaned(text: string): string
  {
    if text == [] then []
    else (if IsSpace(text[0]) then [] else [text[0]]) + Cleaned(text[1..])
  }

  /** `text` is `s` with whitespace put in anywhere. */
  ghost predicate Spaced(text: string, s: string) {
    if text == [] then s == []
    else
      || (IsSpace(text[0]) && Spaced(text[1..], s))
      || (s != [] && text[0] == s[0] && Spaced(text[1..], s[1..]))
  }

  lemma {:induction false} CleanedSpaced(text: string, s: string)
    requires Spaced(text, s) && forall i :: 0 <= i < |s| ==> !IsSpace(s[i])
    ensures Cleaned(text) == s
  {
    hide IsSpace;
    if text != [] {
      if IsSpace(text[0]) && Spaced(text[1..], s) {
        CleanedSpaced(text[1..], s);
      } else {
        CleanedSpaced(text[1..], s[1..]);
        assert s == [s[0]] + s[1..];
      }
    }
  }

  /** Printable: in the ASCII range, above the space, and no single quote. */
  ghost predicate Visible(c: byte) {
    33 <= c < 127 && c != 39
  }

  lemma SymbolIsVisible(v: nat)
    requires v < 64
    ensures Visible(Symbol(v))
  {
  }

  lemma {:induction false} EncodedIsVisible(data: seq<byte>)
    ensures forall i :: 0 <= i < |Encoded(data)| ==> Visible(Encoded(data)[i])
  {
    if data != [] {
      EncodedIsVisible(data[Min3(|data|)..]);
      var chunk := data[..Min3(|data|)];
      QuadIsVisible(chunk);
      hide Quad, Visible;
    }
  }

  lemma QuadIsVisible(chunk: seq<byte>)
    requires 1 <= |chunk| <= 3
    ensures forall i :: 0 <= i < |Quad(chunk)| ==> Visible(Quad(chunk)[i])
  {
    var a, b := chunk[0], if |chunk| > 1 then chunk[1] else 0;
    var c := if |chunk| > 2 then chunk[2] else 0;
    Sextets(a, b, c);
    hide Symbol, Group;
    SymbolIsVisible(a as nat / 4);
    SymbolIsVisible(a as nat % 4 * 16 + b as nat / 16);
    SymbolIsVisible(b as nat % 16 * 4 + c as nat / 64);
    SymbolIsVisible(c as nat % 64);
  }

  /** Whitespace put into an encoding anywhere and filtered out again does no harm. */
  lemma WrappedDecodes(data: seq<byte>, text: string)
    requires Spaced(text, Printed(Encoded(data)))
    ensures Decoded(Spelled(Cleaned(text))) == Some(data)
  {
    EncodedIsVisible(data);
    var sent := Printed(Encoded(data));
    CleanedSpaced(text, sent);
    assert Spelled(sent) == Encoded(data);
    RoundTrip(data);
  }
}
