/** Numbers as bytes, in network order and in the order of a little-endian host. */
module ByteOrder {
  import opened Remainders

  type Byte = b: int | 0 <= b < 256
  type Bytes = seq<Byte>

  datatype Order = Network | LittleEndian

  /** The low `n` bytes of `v`. */
  function Put(order: Order, v: nat, n: nat): (b: Bytes)
    ensures |b| == n
    decreases n
  {
    if n == 0 then []
    else if order == Network then Put(order, v / 256, n - 1) + [v % 256]
    else [v % 256] + Put(order, v / 256, n - 1)
  }

  function Get(order: Order, b: Bytes): nat {
    if b == [] then 0
    else if order == Network then Get(order, b[..|b| - 1]) * 256 + b[|b| - 1]
    else b[0] + 256 * Get(order, b[1..])
  }

  function Power256(n: nat): (p: nat)
    ensures p > 0
  {
    if n == 0 then 1 else 256 * Power256(n - 1)
  }

  lemma {:induction false} GetBounded(order: Order, b: Bytes)
    ensures Get(order, b) < Power256(|b|)
  {
    if b != [] {
      GetBounded(order, if order == Network then b[..|b| - 1] else b[1..]);
    }
  }

  lemma ModSplit(v: nat, p: nat)
    requires p > 0
    ensures v % (256 * p) == v / 256 % p * 256 + v % 256
  {
    var q, r := v / 256, v % 256;
    var k, m := q / p, q % p;
    assert v == q * 256 + r && q == k * p + m;
    assert v == k * (256 * p) + (m * 256 + r) by {
      assert (k * p) * 256 == k * (256 * p);
    }
    DivMod(v, k, m * 256 + r, 256 * p);
  }

  lemma DivTwice(v: nat, p: nat)
    requires p > 0
    ensures v / 256 / p == v / (256 * p)
  {
    var w := 256 * p;
    var k, d := v / 256 / p, v / w;
    ModSplit(v, p);
    assert v == v / 256 * 256 + v % 256 && v / 256 == k * p + v / 256 % p;
    assert (k * p) * 256 == k * w;
    assert v == k * w + v % w && v == d * w + v % w;
    assert (k - d) * w == k * w - d * w;
    MultiplesAreFar(k - d, w);
  }

  /** Little-endian, the byte at `i` counts the multiples of 256 to the `i`; in network order
      it is the same counted from the end. */
  lemma {:induction false} PutBytes(v: nat, n: nat, i: nat)
    requires i < n
    ensures Put(LittleEndian, v, n)[i] == v / Power256(i) % 256
    ensures Put(Network, v, n)[n - 1 - i] == v / Power256(i) % 256
    decreases n
  {
    if i > 0 {
      PutBytes(v / 256, n - 1, i - 1);
      DivTwice(v, Power256(i - 1));
    }
  }

  /** What was put is what is got, as far as it fits. */
  lemma {:induction false} GetPut(order: Order, v: nat, n: nat)
    ensures Get(order, Put(order, v, n)) == v % Power256(n)
    decreases n
  {
    if n > 0 {
      GetPut(order, v / 256, n - 1);
      ModSplit(v, Power256(n - 1));
      var b := Put(order, v / 256, n - 1);
      assert (b + [v % 256])[..n - 1] == b;
      assert ([v % 256] + b)[1..] == b;
    }
  }

  /** Every sequence of bytes is the image of the number that it stands for. */
  lemma {:induction false} PutGet(order: Order, b: Bytes)
    ensures Put(order, Get(order, b), |b|) == b
    decreases |b|
  {
    if b != [] {
      if order == Network {
        var rest, last := b[..|b| - 1], b[|b| - 1];
        PutGet(order, rest);
        Digit(Get(order, rest), last);
        assert b == rest + [last];
      } else {
        var first, rest := b[0], b[1..];
        PutGet(order, rest);
        Digit(Get(order, rest), first);
        assert b == [first] + rest;
      }
    }
  }

  lemma Digit(v: nat, d: Byte)
    ensures (v * 256 + d) / 256 == (d + 256 * v) / 256 == v && (v * 256 + d) % 256 == (d + 256 * v) % 256 == d
  {
  }
}
