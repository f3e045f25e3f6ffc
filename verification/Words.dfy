/** 32-bit words as their bits. */
module Words {
  const ALL_ONES: bv32 := 0xFFFFFFFF

  function Half(c: bv32): bv32 {
    c >> 1
  }

  function Double(c: bv32): bv32 {
    c << 1
  }

  predicate Odd(c: bv32) {
    c & 1 == 1
  }

  function HighBytes(c: bv32): bv32 {
    c >> 8
  }

  /** The bits of a register, least significant first. */
  function Bits(c: bv32, n: nat): (s: seq<bool>)
    ensures |s| == n
    decreases n
  {
    if n == 0 then [] else [Odd(c)] + Bits(Half(c), n - 1)
  }

  function Zeros(n: nat): seq<bool> {
    seq(n, _ => false)
  }

  lemma RawShift(c: bv32)
    ensures c >> 1 >> 1 >> 1 >> 1 >> 1 >> 1 >> 1 >> 1 == c >> 8
    ensures c >> 8 >> 8 >> 8 >> 8 == 0
  {
  }

  lemma HalvesDecide(a: bv32, b: bv32)
    requires Half(a) == Half(b) && Odd(a) == Odd(b)
    ensures a == b
  {
    assert a == (a >> 1 << 1) | (a & 1) && b == (b >> 1 << 1) | (b & 1);
    assert (a & 1 == 0 || a & 1 == 1) && (b & 1 == 0 || b & 1 == 1);
  }

  /** Shifting right one place at a time. */
  function Shifted(c: bv32, n: nat): bv32
    decreases n
  {
    if n == 0 then c else Shifted(Half(c), n - 1)
  }

  lemma {:induction false} ShiftedTwice(c: bv32, a: nat, b: nat)
    ensures Shifted(c, a + b) == Shifted(Shifted(c, a), b)
    decreases a
  {
    if a > 0 {
      ShiftedTwice(Half(c), a - 1, b);
    }
  }

  lemma HalvedEight(c: bv32)
    ensures Half(Half(Half(Half(Half(Half(Half(Half(c)))))))) == HighBytes(c)
    ensures HighBytes(HighBytes(HighBytes(HighBytes(c)))) == 0
  {
    RawShift(c);
  }

  lemma ShiftedEight(c: bv32)
    ensures Shifted(c, 8) == HighBytes(c)
  {
    var d := Half(Half(Half(Half(c))));
    assert Shifted(c, 4) == Shifted(Half(Half(c)), 2) == Shifted(d, 0);
    assert Shifted(d, 4) == Shifted(Half(Half(d)), 2) == Shifted(Half(Half(Half(Half(d)))), 0);
    ShiftedTwice(c, 4, 4);
    HalvedEight(c);
  }

  lemma ShiftedAll(c: bv32)
    ensures Shifted(c, 32) == 0
  {
    var d := HighBytes(c);
    var e := HighBytes(d);
    var f := HighBytes(e);
    ShiftedEight(c);
    ShiftedEight(d);
    ShiftedEight(e);
    ShiftedEight(f);
    ShiftedTwice(c, 8, 24);
    ShiftedTwice(d, 8, 16);
    ShiftedTwice(e, 8, 8);
    HalvedEight(c);
  }

  lemma {:induction false} BitsDecide(a: bv32, b: bv32, n: nat)
    requires Bits(a, n) == Bits(b, n) && Shifted(a, n) == Shifted(b, n)
    ensures a == b
    decreases n
  {
    if n > 0 {
      assert Bits(a, n)[0] == Bits(b, n)[0] && Bits(a, n)[1..] == Bits(b, n)[1..];
      BitsDecide(Half(a), Half(b), n - 1);
      HalvesDecide(a, b);
    }
  }
}
