/**
 The POSIX definition of `cksum` over polynomials with coefficients modulo two: the checksum is
 the complement of the one remainder of message times x^32 by the generator.

 A polynomial is the sequence of its coefficients, highest power first.
 */
module CksumDivision {
  import opened Bytes
  import opened Cksum

  /** x^32 + x^26 + x^23 + ... + 1: the generator with its leading coefficient. */
  const GENERATOR: Generator := [true] + POLY

  type Generator = g: seq<bool> | |g| == 33 && g[0] witness [true] + POLY

  /** The sum of two polynomials of the same length. */
  function Plus(a: seq<bool>, b: seq<bool>): (c: seq<bool>)
    requires |a| == |b|
    ensures |c| == |a| && forall i :: 0 <= i < |a| ==> c[i] == (a[i] != b[i])
  {
    seq(|a|, i requires 0 <= i < |a| => a[i] != b[i])
  }

  /** The generator times a polynomial, by schoolbook multiplication. */
  function TimesGenerator(q: seq<bool>): (p: seq<bool>)
    ensures |p| == |q| + 32
  {
    if q == [] then Zeros(32)
    else
      var n := |q| - 1;
      Plus(TimesGenerator(q[..n]) + [false], Zeros(n) + if q[n] then GENERATOR else Zeros(33))
  }

  /** `m` is `q` times the generator plus `r`, which is of lower degree than the generator. */
  ghost predicate IsDivision(m: seq<bool>, q: seq<bool>, r: Word) {
    |q| == |m| && Zeros(32) + m == Plus(TimesGenerator(q), Zeros(|m|) + r)
  }

  ghost predicate IsRemainder(m: seq<bool>, r: Word) {
    exists q :: IsDivision(m, q, r)
  }

  /** The quotient bits: what leaves the register at the top. */
  function Quotient(m: seq<bool>): (q: seq<bool>)
    ensures |q| == |m|
  {
    if m == [] then [] else Quotient(m[..|m| - 1]) + [Divide(ZERO, m[..|m| - 1])[0]]
  }

  /** Coefficient by coefficient. */
  lemma TimesMore(q: seq<bool>, bit: bool, j: nat)
    requires j < |q| + 33
    ensures TimesGenerator(q + [bit])[j]
         == ((j < |q| + 32 && TimesGenerator(q)[j]) != (bit && j >= |q| && GENERATOR[j - |q|]))
  {
    hide Zeros, TimesGenerator, GENERATOR;
    var n := |q|;
    ZerosAreFalse(n);
    ZerosAreFalse(33);
    TimesUnfold(q, bit);
    var row := Zeros(n) + if bit then GENERATOR else Zeros(33);
    assert row[j] == (bit && j >= n && GENERATOR[j - n]);
  }

  lemma TimesUnfold(q: seq<bool>, bit: bool)
    ensures TimesGenerator(q + [bit])
         == Plus(TimesGenerator(q) + [false], Zeros(|q|) + if bit then GENERATOR else Zeros(33))
  {
    hide GENERATOR, Zeros;
    assert (q + [bit])[..|q|] == q;
  }

  /** One more coefficient brought down. */
  lemma DivisionMore(m: seq<bool>, q: seq<bool>, r: Word, bit: bool)
    requires IsDivision(m, q, r)
    ensures IsDivision(m + [bit], q + [r[0]], Xor(Turn(r), Low(bit)))
  {
    hide TimesGenerator, Turn, Zeros;
    var k := |m|;
    var r' := Xor(Turn(r), Low(bit));
    var left, right := Zeros(32) + (m + [bit]), Plus(TimesGenerator(q + [r[0]]), Zeros(k + 1) + r');
    forall j | 0 <= j < k + 33 ensures left[j] == right[j] {
      CoefficientMore(m, q, r, bit, j);
    }
    assert left == right;
  }

  lemma CoefficientMore(m: seq<bool>, q: seq<bool>, r: Word, bit: bool, j: nat)
    requires IsDivision(m, q, r) && j < |m| + 33
    ensures (Zeros(32) + (m + [bit]))[j]
         == (TimesGenerator(q + [r[0]])[j] != (Zeros(|m| + 1) + Xor(Turn(r), Low(bit)))[j])
  {
    hide TimesGenerator, Turn, Zeros, Plus, GENERATOR, POLY, Xor, Low;
    var k := |m|;
    TimesMore(q, r[0], j);
    ZerosAreFalse(k);
    ZerosAreFalse(k + 1);
    if j < k + 32 {
      assert (Zeros(32) + (m + [bit]))[j] == (Zeros(32) + m)[j];
      assert (Zeros(32) + m)[j] == (TimesGenerator(q)[j] != (Zeros(k) + r)[j]);
    } else {
      assert (Zeros(32) + (m + [bit]))[j] == bit;
    }
    if j > k {
      var i := j - k - 1;
      assert (Zeros(k + 1) + Xor(Turn(r), Low(bit)))[j] == (Turn(r)[i] != (i == 31 && bit));
      assert Turn(r)[i] == ((i < 31 && r[i + 1]) != (r[0] && GENERATOR[i + 1])) by {
        TurnBits(r);
        GeneratorTail(i);
      }
    }
  }

  lemma GeneratorTail(i: nat)
    requires i < 32
    ensures GENERATOR[i + 1] == POLY[i]
  {
    hide POLY;
  }

  /** Long division in the register finds a quotient and a remainder. */
  lemma {:induction false} RegisterDivides(m: seq<bool>)
    ensures IsDivision(m, Quotient(m), Divide(ZERO, m))
  {
    hide IsDivision, Turn;
    if m == [] {
      NothingDivides();
    } else {
      var n := |m| - 1;
      RegisterDivides(m[..n]);
      DivisionMore(m[..n], Quotient(m[..n]), Divide(ZERO, m[..n]), m[n]);
      assert m[..n] + [m[n]] == m;
    }
  }

  lemma NothingDivides()
    ensures IsDivision([], [], ZERO)
  {
    ZerosAreFalse(32);
    assert Zeros(0) == [];
    hide Zeros;
    var left, right := Zeros(32) + [], Plus(Zeros(32), Zeros(0) + ZERO);
    assert forall i :: 0 <= i < 32 ==> left[i] == right[i];
    assert left == right;
  }

  /** The generator being monic, a new coefficient of the factor shows unmixed at its own place. */
  lemma TopMore(q: seq<bool>, bit: bool, j: nat)
    requires j <= |q|
    ensures TimesGenerator(q + [bit])[j] == (TimesGenerator(q)[j] != (bit && j == |q|))
  {
    hide TimesGenerator, GENERATOR;
    TimesMore(q, bit, j);
  }

  ghost predicate SameTop(p: seq<bool>, q: seq<bool>) {
    |p| == |q| && forall j :: 0 <= j < |q| ==> TimesGenerator(p)[j] == TimesGenerator(q)[j]
  }

  lemma SameTopFront(x: seq<bool>, a: bool, y: seq<bool>, b: bool)
    requires |x| == |y| && SameTop(x + [a], y + [b])
    ensures SameTop(x, y) && (x == y ==> a == b)
  {
    hide TimesGenerator;
    forall j | 0 <= j <= |y| ensures (TimesGenerator(x)[j] != (a && j == |y|)) == (TimesGenerator(y)[j] != (b && j == |y|)) {
      TopMore(x, a, j);
      TopMore(y, b, j);
    }
    assert x == y ==> TimesGenerator(x)[|y|] == TimesGenerator(y)[|y|];
  }

  /** The top coefficients of a product determine the factor. */
  lemma {:induction false} FactorUnique(p: seq<bool>, q: seq<bool>)
    requires SameTop(p, q)
    ensures p == q
    decreases |q|
  {
    if q == [] {
      assert p == [];
    } else {
      var n := |q| - 1;
      assert |p| == |q|;
      hide SameTop;
      var x, y := p[..n], q[..n];
      assert x + [p[n]] == p && y + [q[n]] == q;
      SameTopFront(x, p[n], y, q[n]);
      FactorUnique(x, y);
    }
  }

  /** So there is exactly one remainder. */
  lemma DivisionUnique(m: seq<bool>, p: seq<bool>, r: Word, q: seq<bool>, s: Word)
    requires IsDivision(m, p, r) && IsDivision(m, q, s)
    ensures p == q && r == s
  {
    hide TimesGenerator, Zeros;
    var k := |m|;
    ZerosAreFalse(k);
    var whole := Zeros(32) + m;
    forall j | 0 <= j < k ensures TimesGenerator(p)[j] == TimesGenerator(q)[j] {
      assert whole[j] == (TimesGenerator(p)[j] != (Zeros(k) + r)[j]);
      assert whole[j] == (TimesGenerator(q)[j] != (Zeros(k) + s)[j]);
    }
    FactorUnique(p, q);
    forall i | 0 <= i < 32 ensures r[i] == s[i] {
      assert whole[k + i] == (TimesGenerator(p)[k + i] != (Zeros(k) + r)[k + i]);
      assert whole[k + i] == (TimesGenerator(q)[k + i] != (Zeros(k) + s)[k + i]);
    }
  }

  lemma RemainderIff(m: seq<bool>, r: Word)
    ensures IsRemainder(m, r) <==> r == Divide(ZERO, m)
  {
    hide IsDivision, Divide;
    RegisterDivides(m);
    if IsRemainder(m, r) {
      var q :| IsDivision(m, q, r);
      DivisionUnique(m, q, r, Quotient(m), Divide(ZERO, m));
    }
  }

  /**
   The POSIX definition: for message and length as a polynomial M, the checksum is the
   complement of `r` exactly when M times x^32 is some multiple of the generator plus `r`.
   */
  lemma ChecksumIsTheRemainder(data: seq<byte>, r: Word)
    ensures IsRemainder(MessageBits(data + LengthBytes(|data|)) + Zeros(32), r) <==> Checksum(data) == Not(r)
  {
    hide Checksum, Divide, MessageBits, LengthBytes, Zeros;
    var m := MessageBits(data + LengthBytes(|data|)) + Zeros(32);
    RemainderIff(m, r);
    ChecksumIsRemainder(data);
    if Checksum(data) == Not(r) {
      NotInjective(r, Divide(ZERO, m));
    }
  }
}
