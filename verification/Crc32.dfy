/** CRC-32 by table lookup, as in section 8 of RFC 1952, against the division of
    the message by the generator polynomial, and the errors it is sure to detect. */
module Crc32 {
  import opened Words

  const POLYNOMIAL: bv32 := 0xEDB88320

  function Xor(a: bv32, b: bv32): bv32 {
    a ^ b
  }

  function Wide(b: bv8): bv32 {
    b as bv32
  }

  // ---------- The byte-wise form of the source ----------

  /** One bit of division by the reversed polynomial. */
  function BitStep(c: bv32): bv32 {
    if Odd(c) then Xor(POLYNOMIAL, Half(c)) else Half(c)
  }

  function BitSteps(c: bv32, n: nat): bv32
    decreases n
  {
    if n == 0 then c else BitSteps(BitStep(c), n - 1)
  }

  function LowByte(c: bv32): bv32 {
    c & 0xFF
  }

  function ByteStep(c: bv32, b: bv8): bv32 {
    Xor(BitSteps(LowByte(Xor(c, Wide(b))), 8), HighBytes(c))
  }

  function Bytewise(c: bv32, bytes: seq<bv8>): bv32
    decreases |bytes|
  {
    if bytes == [] then c else Bytewise(ByteStep(c, bytes[0]), bytes[1..])
  }

  /** The result of `UpdateCrc32`. */
  function Updated(start: bv32, bytes: seq<bv8>): bv32 {
    Xor(Bytewise(Xor(start, ALL_ONES), bytes), ALL_ONES)
  }

  // ---------- The message as bits ----------

  function BitsOf(bytes: seq<bv8>): (s: seq<bool>)
    ensures |s| == 8 * |bytes|
  {
    if bytes == [] then [] else Bits(Wide(bytes[0]), 8) + BitsOf(bytes[1..])
  }

  function Bit(b: bool): bv32 {
    if b then 1 else 0
  }

  /** The shift register, fed one message bit at a time. */
  function Bitwise(c: bv32, bits: seq<bool>): bv32
    decreases |bits|
  {
    if bits == [] then c else Bitwise(BitStep(Xor(c, Bit(bits[0]))), bits[1..])
  }

  lemma {:induction false} BitwiseConcat(c: bv32, a: seq<bool>, b: seq<bool>)
    ensures Bitwise(c, a + b) == Bitwise(Bitwise(c, a), b)
    decreases |a|
  {
    if a == [] {
      assert a + b == b;
    } else {
      assert (a + b)[1..] == a[1..] + b;
      BitwiseConcat(BitStep(Xor(c, Bit(a[0]))), a[1..], b);
    }
  }

  lemma {:induction false} BytewiseConcat(c: bv32, a: seq<bv8>, b: seq<bv8>)
    ensures Bytewise(c, a + b) == Bytewise(Bytewise(c, a), b)
    decreases |a|
  {
    if a == [] {
      assert a + b == b;
    } else {
      assert (a + b)[1..] == a[1..] + b;
      BytewiseConcat(ByteStep(c, a[0]), a[1..], b);
    }
  }

  lemma {:induction false} BitsOfConcat(a: seq<bv8>, b: seq<bv8>)
    ensures BitsOf(a + b) == BitsOf(a) + BitsOf(b)
    decreases |a|
  {
    if a == [] {
      assert a + b == b;
    } else {
      assert (a + b)[1..] == a[1..] + b;
      BitsOfConcat(a[1..], b);
      var first := Bits(Wide(a[0]), 8);
      assert first + (BitsOf(a[1..]) + BitsOf(b)) == first + BitsOf(a[1..]) + BitsOf(b);
    }
  }

  // ---------- Arithmetic of registers ----------

  lemma RawHalf(a: bv32, b: bv32)
    ensures (a ^ b) >> 1 == (a >> 1) ^ (b >> 1) && (a ^ b) & 1 == (a & 1) ^ (b & 1)
    ensures (a & 1 == 0 || a & 1 == 1) && (b & 1 == 0 || b & 1 == 1)
  {
  }

  lemma XorAssoc(a: bv32, b: bv32, c: bv32)
    ensures Xor(Xor(a, b), c) == Xor(a, Xor(b, c))
  {
  }

  lemma XorComm(a: bv32, b: bv32)
    ensures Xor(a, b) == Xor(b, a) && Xor(a, a) == 0 && Xor(a, 0) == a == Xor(0, a)
  {
  }

  lemma XorHalf(a: bv32, b: bv32)
    ensures Half(Xor(a, b)) == Xor(Half(a), Half(b))
    ensures Odd(Xor(a, b)) == (Odd(a) != Odd(b))
  {
    RawHalf(a, b);
  }

  lemma XorCancel(p: bv32, a: bv32, b: bv32)
    ensures Xor(Xor(p, a), Xor(p, b)) == Xor(a, b)
    ensures Xor(Xor(p, a), b) == Xor(p, Xor(a, b)) == Xor(a, Xor(p, b))
  {
    XorAssoc(p, a, b);
    XorComm(p, a);
    XorAssoc(a, p, b);
    XorAssoc(a, p, Xor(p, b));
    XorAssoc(p, p, b);
    XorComm(p, b);
    XorComm(b, b);
  }

  /** The step is linear: registers may be added before or after it. */
  lemma StepLinear(a: bv32, b: bv32)
    ensures BitStep(Xor(a, b)) == Xor(BitStep(a), BitStep(b))
  {
    XorHalf(a, b);
    XorCancel(POLYNOMIAL, Half(a), Half(b));
  }

  lemma {:induction false} StepsLinear(a: bv32, b: bv32, n: nat)
    ensures BitSteps(Xor(a, b), n) == Xor(BitSteps(a, n), BitSteps(b, n))
    decreases n
  {
    if n > 0 {
      StepLinear(a, b);
      StepsLinear(BitStep(a), BitStep(b), n - 1);
    }
  }

  predicate TopSet(c: bv32) {
    c & 0x80000000 != 0
  }

  lemma StepTop(a: bv32)
    ensures TopSet(BitStep(a)) <==> Odd(a)
  {
  }

  lemma XorInjective(p: bv32, a: bv32, b: bv32)
    requires Xor(p, a) == Xor(p, b)
    ensures a == b
  {
    assert Xor(p, Xor(p, a)) == a && Xor(p, Xor(p, b)) == b;
  }

  /** The step loses nothing: its top bit tells what was shifted out. */
  lemma StepInjective(a: bv32, b: bv32)
    requires BitStep(a) == BitStep(b)
    ensures a == b
  {
    StepTop(a);
    StepTop(b);
    if Odd(a) {
      XorInjective(POLYNOMIAL, Half(a), Half(b));
    }
    HalvesDecide(a, b);
  }

  lemma {:induction false} StepsInjective(a: bv32, b: bv32, n: nat)
    requires BitSteps(a, n) == BitSteps(b, n)
    ensures a == b
    decreases n
  {
    if n > 0 {
      StepsInjective(BitStep(a), BitStep(b), n - 1);
      StepInjective(a, b);
    }
  }

  lemma SplitLow(w: bv32)
    ensures Xor(Bit(Odd(w)), w & 0xFFFFFFFE) == w
    ensures BitStep(w & 0xFFFFFFFE) == Half(w)
  {
    assert w & 1 == 0 || w & 1 == 1;
    assert (w & 0xFFFFFFFE) & 1 == 0 && (w & 0xFFFFFFFE) >> 1 == w >> 1;
  }

  /** Bits that go in one at a time may as well be added all at once. */
  lemma {:induction false} FedAtOnce(c: bv32, w: bv32, n: nat)
    requires Shifted(w, n) == 0
    ensures Bitwise(c, Bits(w, n)) == BitSteps(Xor(c, w), n)
    decreases n
  {
    XorComm(c, w);
    if n > 0 {
      var low, rest := Bit(Odd(w)), w & 0xFFFFFFFE;
      FedAtOnce(BitStep(Xor(c, low)), Half(w), n - 1);
      assert Bits(w, n)[1..] == Bits(Half(w), n - 1);
      SplitLow(w);
      XorAssoc(c, low, rest);
      StepLinear(Xor(c, low), rest);
    }
  }

  lemma {:induction false} StepsOnlyShift(c: bv32, n: nat)
    requires forall i :: 0 <= i < n ==> !Odd(Shifted(c, i))
    ensures BitSteps(c, n) == Shifted(c, n)
    decreases n
  {
    if n > 0 {
      assert !Odd(Shifted(c, 0));
      forall i | 0 <= i < n - 1 ensures !Odd(Shifted(Half(c), i)) {
        assert !Odd(Shifted(c, i + 1));
      }
      StepsOnlyShift(Half(c), n - 1);
    }
  }

  function WithoutLowByte(x: bv32): bv32 {
    x & 0xFFFFFF00
  }

  lemma LowBitsClear(x: bv32)
    ensures var h := WithoutLowByte(x);
      && !Odd(h) && !Odd(Half(h)) && !Odd(Half(Half(h))) && !Odd(Half(Half(Half(h))))
  {
  }

  lemma LowBitsClear4(x: bv32)
    ensures var h := Half(Half(Half(Half(WithoutLowByte(x)))));
      && !Odd(h) && !Odd(Half(h)) && !Odd(Half(Half(h))) && !Odd(Half(Half(Half(h))))
  {
  }

  lemma {:induction false} StepsOnHighPart(x: bv32)
    ensures BitSteps(WithoutLowByte(x), 8) == HighBytes(WithoutLowByte(x))
  {
    var h := WithoutLowByte(x);
    LowBitsClear(x);
    LowBitsClear4(x);
    var h4 := Half(Half(Half(Half(h))));
    assert Shifted(h, 4) == Shifted(Half(Half(h)), 2) == Shifted(h4, 0);
    forall i | 0 <= i < 8 ensures !Odd(Shifted(h, i)) {
      if i < 4 {
        FirstFour(h, i);
      } else {
        ShiftedTwice(h, 4, i - 4);
        FirstFour(h4, i - 4);
      }
    }
    StepsOnlyShift(h, 8);
    ShiftedEight(h);
  }

  lemma FirstFour(h: bv32, i: nat)
    requires i < 4
    requires !Odd(h) && !Odd(Half(h)) && !Odd(Half(Half(h))) && !Odd(Half(Half(Half(h))))
    ensures !Odd(Shifted(h, i))
  {
    if i == 2 {
      assert Shifted(h, 2) == Shifted(Half(Half(h)), 0);
    } else if i == 3 {
      assert Shifted(h, 3) == Shifted(Half(Half(h)), 1);
    }
  }

  lemma SplitByte(c: bv32, b: bv8)
    ensures var x := Xor(c, Wide(b));
      x == Xor(LowByte(x), WithoutLowByte(x)) && HighBytes(WithoutLowByte(x)) == HighBytes(c)
    ensures HighBytes(Wide(b)) == 0
  {
  }

  /** One table look-up does the work of eight bits of the shift register. */
  lemma {:induction false} ByteStepIsEightBits(c: bv32, b: bv8)
    ensures ByteStep(c, b) == Bitwise(c, Bits(Wide(b), 8))
  {
    var x := Xor(c, Wide(b));
    SplitByte(c, b);
    ShiftedEight(Wide(b));
    FedAtOnce(c, Wide(b), 8);
    StepsLinear(LowByte(x), WithoutLowByte(x), 8);
    StepsOnHighPart(x);
  }

  /** The table-driven loop computes what the bit-by-bit shift register computes. */
  lemma {:induction false} BytewiseIsBitwise(c: bv32, bytes: seq<bv8>)
    ensures Bytewise(c, bytes) == Bitwise(c, BitsOf(bytes))
    decreases |bytes|
  {
    if bytes != [] {
      ByteStepIsEightBits(c, bytes[0]);
      BytewiseIsBitwise(ByteStep(c, bytes[0]), bytes[1..]);
      BitwiseConcat(c, Bits(Wide(bytes[0]), 8), BitsOf(bytes[1..]));
    }
  }

  /** A message may be checked in pieces. */
  lemma {:induction false} UpdatedConcat(start: bv32, a: seq<bv8>, b: seq<bv8>)
    ensures Updated(Updated(start, a), b) == Updated(start, a + b)
  {
    var c := Bytewise(Xor(start, ALL_ONES), a);
    XorAssoc(c, ALL_ONES, ALL_ONES);
    XorComm(ALL_ONES, c);
    XorComm(c, 0);
    BytewiseConcat(Xor(start, ALL_ONES), a, b);
  }

  // ---------- Division of polynomials ----------

  /** The powers of x in the generator below x^32, from section 8 of RFC 1952. */
  const GENERATOR_POWERS: set<int> := {26, 23, 22, 16, 12, 11, 10, 8, 7, 5, 4, 2, 1, 0}

  function Generator(): (g: seq<bool>)
    ensures |g| == 32
  {
    seq(32, i => 31 - i in GENERATOR_POWERS)
  }

  /** Adds `d` to the leading coefficients of `w`. */
  function Added(w: seq<bool>, d: seq<bool>): (s: seq<bool>)
    requires |d| <= |w|
    ensures |s| == |w|
  {
    seq(|w|, i requires 0 <= i < |w| => if i < |d| then w[i] != d[i] else w[i])
  }

  /** What long division by the generator leaves; coefficients are bits, the
      highest power first. */
  function Remainder(w: seq<bool>): (r: seq<bool>)
    requires |w| >= 32
    ensures |r| == 32
    decreases |w|
  {
    if |w| == 32 then w
    else if w[0] then Remainder(Added(w[1..], Generator()))
    else Remainder(w[1..])
  }

  lemma {:induction false} BitsXor(a: bv32, b: bv32, n: nat)
    ensures Bits(Xor(a, b), n) == Added(Bits(a, n), Bits(b, n))
    decreases n
  {
    hide Half, Odd, Xor;
    if n > 0 {
      XorHalf(a, b);
      BitsXor(Half(a), Half(b), n - 1);
    }
  }

  /** Halving a register drops its first bit and appends a zero. */
  lemma {:induction false} BitsHalf(c: bv32, n: nat)
    requires n > 0 && Shifted(c, n) == 0
    ensures Bits(Half(c), n) == Bits(c, n)[1..] + [false]
    decreases n
  {
    if n == 1 {
      assert Shifted(Half(c), 0) == 0;
      assert !Odd(0);
      assert Bits(Half(c), 1) == [false] + Bits(Half(Half(c)), 0);
    } else {
      BitsHalf(Half(c), n - 1);
    }
  }

  lemma {:induction false} BitsSplit(c: bv32, m: nat, n: nat)
    ensures Bits(c, m + n) == Bits(c, m) + Bits(Shifted(c, m), n)
    decreases m
  {
    if m > 0 {
      BitsSplit(Half(c), m - 1, n);
    }
  }

  lemma Nibble(c: bv32, n: nat)
    ensures Bits(c, 4 + n) == [c & 1 != 0, c & 2 != 0, c & 4 != 0, c & 8 != 0] + Bits(c >> 4, n)
  {
    hide Half, Odd;
    BitsSplit(c, 4, n);
    var c1, c2, c3 := Half(c), Half(Half(c)), Half(Half(Half(c)));
    assert Bits(c, 4) == [Odd(c)] + ([Odd(c1)] + ([Odd(c2)] + ([Odd(c3)] + [])));
    assert Shifted(c, 4) == Shifted(c2, 2) == Half(c3);
    Bit01(c);
    Bit2(c);
    Bit3(c);
    FourHalves(c);
  }

  lemma Bit01(c: bv32)
    ensures Odd(c) == (c & 1 != 0) && Odd(Half(c)) == (c & 2 != 0)
  {
  }

  lemma Bit2(c: bv32)
    ensures Odd(Half(Half(c))) == (c & 4 != 0)
  {
  }

  lemma Bit3(c: bv32)
    ensures Odd(Half(Half(Half(c)))) == (c & 8 != 0)
  {
  }

  lemma FourHalves(c: bv32)
    ensures Half(Half(Half(Half(c)))) == c >> 4
  {
  }

  const GENERATOR_LOW: seq<bool> :=
    [false, false, false, true, true, true, false, true, true, false, true, true, false, true, true, true]
  const GENERATOR_HIGH: seq<bool> :=
    [false, false, false, false, false, true, false, false, true, true, false, false, false, false, false, true]

  lemma GeneratorHalves()
    ensures Generator() == GENERATOR_HIGH + GENERATOR_LOW
  {
    var g := Generator();
    assert g[..16] == GENERATOR_HIGH;
    assert g[16..] == GENERATOR_LOW;
  }

  lemma PolynomialHigh()
    ensures Bits(0xEDB8, 16) == GENERATOR_LOW
  {
    hide Bits;
    Nibble(0xEDB8, 12);
    Nibble(0xEDB, 8);
    Nibble(0xED, 4);
    Nibble(0xE, 0);
    NoBits(0);
    var f := false;
    FourParts([f, f, f, true], [true, true, f, true], [true, f, true, true], [f, true, true, true], []);
  }

  lemma NoBits(c: bv32)
    ensures Bits(c, 0) == []
  {
  }

  lemma PolynomialLow()
    ensures Bits(POLYNOMIAL, 32) == GENERATOR_HIGH + Bits(0xEDB8, 16)
  {
    hide Bits;
    Nibble(0xEDB88320, 28);
    Nibble(0xEDB8832, 24);
    Nibble(0xEDB883, 20);
    Nibble(0xEDB88, 16);
    var f := false;
    FourParts([f, f, f, f], [f, true, f, f], [true, true, f, f], [f, f, f, true], Bits(0xEDB8, 16));
  }

  lemma FourParts(a: seq<bool>, b: seq<bool>, c: seq<bool>, d: seq<bool>, rest: seq<bool>)
    ensures a + (b + (c + (d + rest))) == a + b + c + d + rest
  {
  }

  /** The polynomial in the program is the generator, lowest power last. */
  lemma PolynomialIsGenerator()
    ensures Bits(POLYNOMIAL, 32) == Generator()
  {
    GeneratorHalves();
    PolynomialHigh();
    PolynomialLow();
  }

  /** One bit of the shift register is one step of the long division. */
  lemma {:induction false} StepDivides(c: bv32, b: bool, rest: seq<bool>)
    requires |rest| >= 32
    ensures Remainder(Added([b] + rest, Bits(c, 32)))
         == Remainder(Added(rest, Bits(BitStep(Xor(c, Bit(b))), 32)))
  {
    hide Half, Odd, Xor, Generator, Added, BitSteps;
    var d, h := Bits(c, 32), Bits(Half(c), 32);
    FirstBit(c, b);
    ShiftedAll(c);
    BitsHalf(c, 32);
    AddedTail(b, rest, d, h);
    assert d[0] == Odd(c);
    if b != d[0] {
      PolynomialIsGenerator();
      BitsXor(Half(c), POLYNOMIAL, 32);
      XorComm(POLYNOMIAL, Half(c));
      AddedTwice(rest, h, Generator());
    }
  }

  lemma AddedTail(b: bool, rest: seq<bool>, d: seq<bool>, h: seq<bool>)
    requires |d| == |h| == 32 <= |rest| && h == d[1..] + [false]
    ensures Added([b] + rest, d)[1..] == Added(rest, h) && Added([b] + rest, d)[0] == (b != d[0])
  {
  }

  lemma AddedTwice(w: seq<bool>, d: seq<bool>, e: seq<bool>)
    requires |d| == |e| <= |w|
    ensures Added(Added(w, d), e) == Added(w, Added(d, e))
  {
  }

  /** The shift register holds the remainder of the message, followed by
      thirty-two zeros, with the start value added to its front. */
  lemma {:induction false} RegisterIsRemainder(c: bv32, bits: seq<bool>)
    ensures Bits(Bitwise(c, bits), 32) == Remainder(Added(bits + Zeros(32), Bits(c, 32)))
    decreases |bits|
  {
    if bits == [] {
      assert Added(bits + Zeros(32), Bits(c, 32)) == Bits(c, 32);
    } else {
      var next := BitStep(Xor(c, Bit(bits[0])));
      var rest := bits[1..] + Zeros(32);
      assert bits + Zeros(32) == [bits[0]] + rest;
      StepDivides(c, bits[0], rest);
      RegisterIsRemainder(next, bits[1..]);
    }
  }

  lemma FirstBit(c: bv32, b: bool)
    ensures Odd(Xor(c, Bit(b))) == (Odd(c) != b) && Half(Xor(c, Bit(b))) == Half(c)
  {
    XorHalf(c, Bit(b));
    DoubleHalf(0);
    XorComm(Half(c), 0);
  }

  /** The checksum is the complement of the remainder of the complemented-start
      message: the definition of CRC-32 as polynomial division. */
  lemma {:induction false} ChecksumIsRemainder(start: bv32, bytes: seq<bv8>)
    ensures Bits(Xor(Updated(start, bytes), ALL_ONES), 32)
         == Remainder(Added(BitsOf(bytes) + Zeros(32), Bits(Xor(start, ALL_ONES), 32)))
  {
    var c := Xor(start, ALL_ONES);
    BytewiseIsBitwise(c, bytes);
    RegisterIsRemainder(c, BitsOf(bytes));
    XorAssoc(Bytewise(c, bytes), ALL_ONES, ALL_ONES);
    XorComm(ALL_ONES, ALL_ONES);
    XorComm(Bytewise(c, bytes), 0);
  }

  // ---------- Errors that are always detected ----------

  lemma {:induction false} BitwiseInjective(a: bv32, b: bv32, bits: seq<bool>)
    requires Bitwise(a, bits) == Bitwise(b, bits)
    ensures a == b
    decreases |bits|
  {
    if bits != [] {
      var bit := Bit(bits[0]);
      BitwiseInjective(BitStep(Xor(a, bit)), BitStep(Xor(b, bit)), bits[1..]);
      StepInjective(Xor(a, bit), Xor(b, bit));
      XorComm(a, bit);
      XorComm(b, bit);
      XorInjective(bit, a, b);
    }
  }

  /** The register whose low bits are these. */
  function Pack(bits: seq<bool>): bv32 {
    if bits == [] then 0 else Xor(Double(Pack(bits[1..])), Bit(bits[0]))
  }

  lemma DoubleUndone(c: bv32, b: bool)
    requires !TopSet(c)
    ensures Half(Xor(Double(c), Bit(b))) == c && Odd(Xor(Double(c), Bit(b))) == b
  {
    XorHalf(Double(c), Bit(b));
    DoubleHalf(c);
    XorComm(c, 0);
  }

  lemma DoubleHalf(c: bv32)
    requires !TopSet(c)
    ensures Half(Double(c)) == c && !Odd(Double(c)) && Half(1) == 0 && Half(0) == 0
  {
  }

  lemma TopShifted(c: bv32)
    requires Shifted(c, 31) == 0
    ensures !TopSet(c)
  {
    var d := HighBytes(c);
    var e := HighBytes(d);
    ShiftedEight(c);
    ShiftedEight(d);
    ShiftedEight(e);
    ShiftedTwice(c, 8, 23);
    ShiftedTwice(d, 8, 15);
    ShiftedTwice(e, 8, 7);
    var f := HighBytes(e);
    ShiftedTwice(f, 4, 3);
    var g := Half(Half(Half(Half(f))));
    assert Shifted(f, 4) == Shifted(Half(Half(f)), 2) == Shifted(g, 0);
    assert Shifted(g, 3) == Shifted(Half(Half(g)), 1) == Shifted(Half(Half(Half(g))), 0);
    TopVisible(c);
  }

  lemma TopVisible(c: bv32)
    ensures var f := HighBytes(HighBytes(HighBytes(c)));
      Half(Half(Half(Half(Half(Half(Half(f))))))) == 0 ==> !TopSet(c)
  {
  }

  lemma {:induction false} PackUndone(bits: seq<bool>)
    requires |bits| <= 32
    ensures Bits(Pack(bits), |bits|) == bits && Shifted(Pack(bits), |bits|) == 0
    decreases |bits|
  {
    if bits != [] {
      var rest, n := bits[1..], |bits| - 1;
      PackUndone(rest);
      ShiftedZero(31 - n);
      ShiftedTwice(Pack(rest), n, 31 - n);
      TopShifted(Pack(rest));
      DoubleUndone(Pack(rest), bits[0]);
    }
  }

  lemma {:induction false} ShiftedZero(n: nat)
    ensures Shifted(0, n) == 0
    decreases n
  {
    assert Half(0) == 0;
    if n > 0 {
      ShiftedZero(n - 1);
    }
  }

  /** Up to thirty-two message bits are told apart whatever the register holds. */
  lemma {:induction false} WindowInjective(c: bv32, d1: seq<bool>, d2: seq<bool>)
    requires |d1| == |d2| <= 32 && Bitwise(c, d1) == Bitwise(c, d2)
    ensures d1 == d2
  {
    PackUndone(d1);
    PackUndone(d2);
    FedAtOnce(c, Pack(d1), |d1|);
    FedAtOnce(c, Pack(d2), |d2|);
    StepsInjective(Xor(c, Pack(d1)), Xor(c, Pack(d2)), |d1|);
    XorInjective(c, Pack(d1), Pack(d2));
  }

  /** Bit streams that differ only within thirty-two consecutive bits. */
  predicate DifferInBurst(x: seq<bool>, y: seq<bool>, k: nat) {
    && |x| == |y| && x != y
    && k <= |x| && x[..k] == y[..k]
    && (k + 32 <= |x| ==> x[k + 32..] == y[k + 32..])
  }

  lemma InThree<T>(s: seq<T>, from: nat, to: nat)
    requires from <= to <= |s|
    ensures s == s[..from] + s[from..to] + s[to..]
  {
  }

  lemma {:induction false} BurstChangesRegister(c: bv32, x: seq<bool>, y: seq<bool>, k: nat)
    requires DifferInBurst(x, y, k)
    ensures Bitwise(c, x) != Bitwise(c, y)
  {
    var end := if k + 32 <= |x| then k + 32 else |x|;
    var r := Bitwise(c, x[..k]);
    InThree(x, k, end);
    InThree(y, k, end);
    BitwiseConcat(c, x[..k] + x[k..end], x[end..]);
    BitwiseConcat(c, x[..k], x[k..end]);
    BitwiseConcat(c, y[..k] + y[k..end], y[end..]);
    BitwiseConcat(c, y[..k], y[k..end]);
    if Bitwise(c, x) == Bitwise(c, y) {
      BitwiseInjective(Bitwise(r, x[k..end]), Bitwise(r, y[k..end]), x[end..]);
      WindowInjective(r, x[k..end], y[k..end]);
      assert false;
    }
  }

  /** Any burst of errors of up to thirty-two bits, on byte boundaries or not,
      changes the checksum. */
  lemma {:induction false} BurstDetected(start: bv32, x: seq<bv8>, y: seq<bv8>, k: nat)
    requires DifferInBurst(BitsOf(x), BitsOf(y), k)
    ensures Updated(start, x) != Updated(start, y)
  {
    var c := Xor(start, ALL_ONES);
    BytewiseIsBitwise(c, x);
    BytewiseIsBitwise(c, y);
    BurstChangesRegister(c, BitsOf(x), BitsOf(y), k);
    XorComm(Bytewise(c, x), ALL_ONES);
    XorComm(Bytewise(c, y), ALL_ONES);
    if Updated(start, x) == Updated(start, y) {
      XorInjective(ALL_ONES, Bytewise(c, x), Bytewise(c, y));
    }
  }

  lemma WideInjective(a: bv8, b: bv8)
    requires Wide(a) == Wide(b)
    ensures a == b
  {
  }

  /** No information is lost by taking a message as bits. */
  lemma {:induction false} BitsOfInjective(x: seq<bv8>, y: seq<bv8>)
    requires |x| == |y| && BitsOf(x) == BitsOf(y)
    ensures x == y
    decreases |x|
  {
    if x != [] {
      var a, b := Wide(x[0]), Wide(y[0]);
      assert BitsOf(x)[..8] == Bits(a, 8) && BitsOf(y)[..8] == Bits(b, 8);
      assert BitsOf(x)[8..] == BitsOf(x[1..]) && BitsOf(y)[8..] == BitsOf(y[1..]);
      ShiftedEight(a);
      ShiftedEight(b);
      SplitByte(0, x[0]);
      SplitByte(0, y[0]);
      BitsDecide(a, b, 8);
      WideInjective(x[0], y[0]);
      BitsOfInjective(x[1..], y[1..]);
    }
  }

  /** Two messages that differ only within four consecutive bytes have different
      checksums from the same start. */
  lemma {:induction false} FourBytesDetected(start: bv32, front: seq<bv8>, d1: seq<bv8>, d2: seq<bv8>, back: seq<bv8>)
    requires |d1| == |d2| <= 4 && d1 != d2
    ensures Updated(start, front + d1 + back) != Updated(start, front + d2 + back)
  {
    BitsOfConcat(front + d1, back);
    BitsOfConcat(front, d1);
    BitsOfConcat(front + d2, back);
    BitsOfConcat(front, d2);
    if BitsOf(d1) == BitsOf(d2) {
      BitsOfInjective(d1, d2);
    }
    BurstInside(BitsOf(front), BitsOf(d1), BitsOf(d2), BitsOf(back));
    BurstDetected(start, front + d1 + back, front + d2 + back, |BitsOf(front)|);
  }

  lemma BurstInside(front: seq<bool>, d1: seq<bool>, d2: seq<bool>, back: seq<bool>)
    requires |d1| == |d2| <= 32 && d1 != d2
    ensures DifferInBurst(front + d1 + back, front + d2 + back, |front|)
  {
    var x, y, k := front + d1 + back, front + d2 + back, |front|;
    assert x[k..][..|d1|] == d1 && y[k..][..|d2|] == d2;
    assert x[..k] == front == y[..k];
    if k + 32 <= |x| {
      assert x[k + 32..] == back[32 - |d1|..] == y[k + 32..];
    }
  }

  // ---------- The program ----------

  lemma {:induction false} ZeroSteps(n: nat)
    ensures BitSteps(0, n) == 0
    decreases n
  {
    assert BitStep(0) == 0;
    if n > 0 {
      ZeroSteps(n - 1);
    }
  }

  lemma {:induction false} LastEntryNonzero()
    ensures BitSteps(255, 8) != 0
  {
    ZeroSteps(8);
    if BitSteps(255, 8) == BitSteps(0, 8) {
      StepsInjective(255, 0, 8);
    }
  }

  function Word(i: nat): bv32
    requires i < 256
  {
    i as bv32
  }

  function Index(x: bv32): (i: nat)
    requires x < 256
    ensures i < 256
  {
    x as int
  }

  lemma WordOfIndex(x: bv32)
    requires x < 256
    ensures Word(Index(x)) == x
  {
  }

  lemma LowByteSmall(x: bv32)
    ensures LowByte(x) < 256
  {
  }

  lemma LastWord()
    ensures Word(255) == 255
  {
  }

  class Crc32Table {
    const table: array<bv32>

    ghost predicate Inited()
      reads table
    {
      table.Length == 256 && forall i :: 0 <= i < 256 ==> table[i] == BitSteps(Word(i), 8)
    }

    /** Either nothing has been filled in, or everything has. */
    ghost predicate Valid()
      reads table
    {
      table.Length == 256 && (table[255] == 0 || Inited())
    }

    constructor ()
      ensures Valid() && fresh(table)
    {
      table := new bv32[256](_ => 0);
    }

    /** A last entry that is not zero is proof enough that the table is filled. */
    method EnsureInited()
      requires Valid()
      modifies table
      ensures Inited() && table[255] != 0
      ensures old(table[255]) != 0 ==> table[..] == old(table[..])
    {
      LastEntryNonzero();
      LastWord();
      if table[255] != 0 {
        return;
      }
      FillTable();
    }

    method FillTable()
      requires table.Length == 256
      modifies table
      ensures Inited()
    {
      hide BitSteps, Word;
      var i := 0;
      while i < 256
        invariant i <= 256 && forall k :: 0 <= k < i ==> table[k] == BitSteps(Word(k), 8)
      {
        table[i] := Divide(Word(i));
        i := i + 1;
      }
    }

    /** The eight steps of bit-by-bit division. */
    static method Divide(i: bv32) returns (c: bv32)
      ensures c == BitSteps(i, 8)
    {
      c := i;
      var j := 0;
      while j < 8
        invariant j <= 8 && BitSteps(i, 8) == BitSteps(c, 8 - j)
      {
        if Odd(c) {
          c := Xor(POLYNOMIAL, Half(c));
        } else {
          c := Half(c);
        }
        j := j + 1;
      }
    }

    method UpdateCrc32(start: bv32, buf: seq<bv8>) returns (crc: bv32)
      requires Valid()
      modifies table
      ensures Valid() && crc == Updated(start, buf)
    {
      EnsureInited();
      var c := Xor(start, ALL_ONES);
      var i := 0;
      assert buf[0..] == buf;
      while i < |buf|
        invariant i <= |buf| && Inited()
        invariant Bytewise(Xor(start, ALL_ONES), buf) == Bytewise(c, buf[i..])
      {
        var index := LowByte(Xor(c, Wide(buf[i])));
        LowByteSmall(Xor(c, Wide(buf[i])));
        WordOfIndex(index);
        assert buf[i..][1..] == buf[i + 1..];
        c := Xor(table[Index(index)], HighBytes(c));
        i := i + 1;
      }
      return Xor(c, ALL_ONES);
    }
  }
}
