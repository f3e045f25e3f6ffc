/** IP prefixes: cutting an address to its first bits, and counting the bits of a mask. */
module IpPrefix {
  import opened Words

  type FourWords = w: seq<bv32> | |w| == 4 witness [0, 0, 0, 0]

  /** An address as words in host order. */
  datatype IpAddress = Unspecified | V4(word: bv32) | V6(words: FourWords)

  function And(a: bv32, b: bv32): bv32 {
    a & b
  }

  function Mask(k: nat): bv32
    requires k <= 32
  {
    ALL_ONES << k
  }

  function Truncated(ip: IpAddress, length: int): (r: IpAddress)
    ensures length >= 0 ==> r.Unspecified? == ip.Unspecified? && r.V4? == ip.V4?
  {
    if length < 0 then Unspecified
    else
      match ip
      case V4(word) =>
        if length > 31 then ip
        else if length == 0 then V4(0)
        else V4(And(word, Mask(32 - length)))
      case V6(words) =>
        if length > 127 then ip
        else if length == 0 then V6([0, 0, 0, 0])
        else V6(TruncatedWords(words, length))
      case Unspecified => Unspecified
  }

  function TruncatedWords(words: FourWords, length: nat): FourWords
    requires length < 128
  {
    var position := length / 32;
    seq(4, i requires 0 <= i < 4 =>
      if i < position then words[i]
      else if i == position then And(words[i], Mask(32 - length % 32))
      else 0)
  }

  // ---------- An address as bits, the first bit first ----------

  function Reversed(s: seq<bool>): (r: seq<bool>)
    ensures |r| == |s|
    ensures forall i :: 0 <= i < |s| ==> r[i] == s[|s| - 1 - i]
  {
    if s == [] then [] else Reversed(s[1..]) + [s[0]]
  }

  function WordBits(w: bv32): (s: seq<bool>)
    ensures |s| == 32
  {
    Reversed(Bits(w, 32))
  }

  function AddressBits(ip: IpAddress): (s: seq<bool>)
    ensures |s| == if ip.Unspecified? then 0 else if ip.V4? then 32 else 128
  {
    match ip
    case Unspecified => []
    case V4(word) => WordBits(word)
    case V6(words) => WordBits(words[0]) + (WordBits(words[1]) + (WordBits(words[2]) + WordBits(words[3])))
  }

  /** The first `n` bits of `s`, and zeros for the others. */
  function Prefix(s: seq<bool>, n: nat): (r: seq<bool>)
    ensures |r| == |s|
  {
    if n < |s| then s[..n] + Zeros(|s| - n) else s
  }

  lemma MaskStep(k: nat)
    requires k < 32
    ensures Mask(k + 1) == Double(Mask(k))
  {
    if k < 8 {
    } else if k < 16 {
    } else if k < 24 {
    } else {
    }
  }

  lemma MaskZero()
    ensures Mask(0) == ALL_ONES && Mask(32) == 0
  {
  }

  lemma RawAnd(w: bv32, m: bv32)
    ensures (w & (m << 1)) >> 1 == (w >> 1) & m
    ensures (w & (m << 1)) & 1 == 0
  {
  }

  lemma AndHalf(w: bv32, m: bv32)
    ensures Half(And(w, Double(m))) == And(Half(w), m) && !Odd(And(w, Double(m)))
  {
    RawAnd(w, m);
  }

  lemma AndEnds(w: bv32)
    ensures And(w, ALL_ONES) == w && And(w, 0) == 0
  {
  }

  lemma ClearedStep(b: bool, t: seq<bool>, k: nat)
    requires 0 < k <= |t| + 1
    ensures [false] + (Zeros(k - 1) + t[k - 1..]) == Zeros(k) + ([b] + t)[k..]
  {
    assert Zeros(k) == [false] + Zeros(k - 1);
    assert ([b] + t)[k..] == t[k - 1..];
  }

  lemma {:induction false} MaskClears(w: bv32, k: nat, n: nat)
    requires k <= n <= 32
    ensures Bits(And(w, Mask(k)), n) == Zeros(k) + Bits(w, n)[k..]
    decreases k
  {
    hide Half, Odd, And, Double, Mask;
    if k == 0 {
      MaskZero();
      AndEnds(w);
    } else {
      hide Zeros;
      var cut := And(w, Mask(k));
      MaskStep(k - 1);
      AndHalf(w, Mask(k - 1));
      MaskClears(Half(w), k - 1, n - 1);
      ClearedStep(Odd(w), Bits(Half(w), n - 1), k);
      assert Bits(cut, n) == [Odd(cut)] + Bits(Half(cut), n - 1);
      assert Bits(w, n) == [Odd(w)] + Bits(Half(w), n - 1);
      hide Bits;
    }
  }

  lemma {:induction false} ReversedCleared(s: seq<bool>, k: nat)
    requires k <= |s|
    ensures Reversed(Zeros(k) + s[k..]) == Prefix(Reversed(s), |s| - k)
    decreases k
  {
    if k == 0 {
      assert Zeros(0) + s == s;
    } else {
      var t := s[1..];
      var rest := Zeros(k - 1) + t[k - 1..];
      assert Zeros(k) + s[k..] == [false] + rest;
      ReversedCleared(t, k - 1);
      assert Reversed([false] + rest) == Reversed(rest) + [false] by {
        assert ([false] + rest)[1..] == rest;
      }
      hide Reversed;
      ClearedPrefix(Reversed(t), s[0], k);
    }
  }

  lemma ClearedPrefix(r: seq<bool>, b: bool, k: nat)
    requires 0 < k <= |r| + 1
    ensures Prefix(r, |r| + 1 - k) + [false] == Prefix(r + [b], |r| + 1 - k)
  {
  }

  lemma TruncatedWordBits(w: bv32, n: nat)
    requires n <= 32
    ensures WordBits(And(w, Mask(32 - n))) == Prefix(WordBits(w), n)
  {
    MaskClears(w, 32 - n, 32);
    ReversedCleared(Bits(w, 32), 32 - n);
    hide And, Mask, Bits, Reversed, Prefix;
  }

  lemma ZeroBits()
    ensures WordBits(0) == Zeros(32)
  {
    MaskZero();
    AndEnds(0);
    TruncatedWordBits(0, 0);
    hide WordBits;
    assert Prefix(WordBits(0), 0) == Zeros(32);
  }

  lemma PrefixOfFour(a: seq<bool>, b: seq<bool>, c: seq<bool>, d: seq<bool>, n: nat)
    requires |a| == |b| == |c| == |d| == 32 && n < 128
    ensures Prefix(a + (b + (c + d)), n)
      == if n < 32 then Prefix(a, n) + (Zeros(32) + (Zeros(32) + Zeros(32)))
         else if n < 64 then a + (Prefix(b, n - 32) + (Zeros(32) + Zeros(32)))
         else if n < 96 then a + (b + (Prefix(c, n - 64) + Zeros(32)))
         else a + (b + (c + Prefix(d, n - 96)))
  {
  }

  lemma TruncatedWordsAre(words: FourWords, n: nat)
    requires n < 128
    ensures var p, cut := n / 32, And(words[n / 32], Mask(32 - n % 32));
      TruncatedWords(words, n)
      == if p == 0 then [cut, 0, 0, 0]
         else if p == 1 then [words[0], cut, 0, 0]
         else if p == 2 then [words[0], words[1], cut, 0]
         else [words[0], words[1], words[2], cut]
  {
    hide And, Mask;
  }

  lemma TruncatedWordsBits(words: FourWords, n: nat)
    requires n < 128
    ensures AddressBits(V6(TruncatedWords(words, n))) == Prefix(AddressBits(V6(words)), n)
  {
    hide WordBits, And, Mask, Prefix, TruncatedWords, Zeros;
    TruncatedWordBits(words[n / 32], n % 32);
    ZeroBits();
    PrefixOfFour(WordBits(words[0]), WordBits(words[1]), WordBits(words[2]), WordBits(words[3]), n);
    TruncatedWordsAre(words, n);
  }

  lemma NothingKept(ip: IpAddress)
    ensures AddressBits(Truncated(ip, 0)) == Prefix(AddressBits(ip), 0)
  {
    hide WordBits;
    ZeroBits();
  }

  /** Truncating keeps exactly the first `n` bits. */
  lemma TruncatedKeepsPrefix(ip: IpAddress, n: nat)
    ensures AddressBits(Truncated(ip, n)) == Prefix(AddressBits(ip), n)
  {
    hide WordBits, And, Mask, TruncatedWords;
    if n == 0 {
      NothingKept(ip);
    } else if ip.V4? && n < 32 {
      TruncatedWordBits(ip.word, n);
    } else if ip.V6? && n < 128 {
      TruncatedWordsBits(ip.words, n);
      hide Prefix;
    }
  }

  lemma ReversedDecides(s: seq<bool>, t: seq<bool>)
    requires Reversed(s) == Reversed(t)
    ensures s == t
  {
    hide Reversed;
    assert |s| == |t|;
    forall i | 0 <= i < |s| ensures s[i] == t[i] {
      assert Reversed(s)[|s| - 1 - i] == s[i] && Reversed(t)[|s| - 1 - i] == t[i];
    }
  }

  lemma WordsDecide(a: bv32, b: bv32)
    requires WordBits(a) == WordBits(b)
    ensures a == b
  {
    hide Bits, Shifted, Reversed;
    ReversedDecides(Bits(a, 32), Bits(b, 32));
    ShiftedAll(a);
    ShiftedAll(b);
    BitsDecide(a, b, 32);
  }

  /** Addresses of one family with the same bits are the same. */
  lemma BitsDecideAddress(x: IpAddress, y: IpAddress)
    requires x.V4? == y.V4? && x.V6? == y.V6? && AddressBits(x) == AddressBits(y)
    ensures x == y
  {
    hide WordBits;
    if x.V4? {
      WordsDecide(x.word, y.word);
    } else if x.V6? {
      forall i | 0 <= i < 4 ensures x.words[i] == y.words[i] {
        assert AddressBits(x)[32 * i..32 * i + 32] == WordBits(x.words[i]);
        assert AddressBits(y)[32 * i..32 * i + 32] == WordBits(y.words[i]);
        WordsDecide(x.words[i], y.words[i]);
      }
    }
  }

  lemma PrefixTwice(s: seq<bool>, a: nat, b: nat)
    ensures Prefix(Prefix(s, a), b) == Prefix(s, if a < b then a else b)
  {
  }

  /** Truncating twice is truncating once, to the shorter length. */
  lemma TruncatedTwice(ip: IpAddress, a: int, b: int)
    ensures Truncated(Truncated(ip, a), b) == Truncated(ip, if a < b then a else b)
  {
    if a >= 0 && b >= 0 {
      hide AddressBits, Truncated, Prefix;
      var n := if a < b then a else b;
      TruncatedKeepsPrefix(ip, a);
      TruncatedKeepsPrefix(Truncated(ip, a), b);
      TruncatedKeepsPrefix(ip, n);
      PrefixTwice(AddressBits(ip), a, b);
      FamilyKept(ip, a);
      FamilyKept(ip, n);
      FamilyKept(Truncated(ip, a), b);
      BitsDecideAddress(Truncated(Truncated(ip, a), b), Truncated(ip, n));
    }
  }

  lemma FamilyKept(ip: IpAddress, n: nat)
    ensures Truncated(ip, n).V4? == ip.V4? && Truncated(ip, n).V6? == ip.V6?
  {
  }

  // ---------- Counting the bits of a mask ----------

  /** How many bits there are up to the last one that is set. */
  function LastOne(s: seq<bool>): (n: nat)
    ensures n <= |s|
  {
    if s == [] then 0 else if s[|s| - 1] then |s| else LastOne(s[..|s| - 1])
  }

  /** Word by word: the first that is not all ones decides, whatever comes after it. */
  function CountedFrom(words: FourWords, i: nat): nat
    requires i <= 4
    decreases 4 - i
  {
    if i == 4 then 128
    else if words[i] == ALL_ONES then CountedFrom(words, i + 1)
    else 32 * i + LastOne(WordBits(words[i]))
  }

  function MaskBits(mask: IpAddress): nat {
    match mask
    case V4(word) => LastOne(WordBits(word))
    case V6(words) => CountedFrom(words, 0)
    case Unspecified => 0
  }

  lemma {:induction false} PrefixFromLastOne(s: seq<bool>, n: nat)
    ensures Prefix(s, n) == s <==> LastOne(s) <= n
  {
    if s != [] && n < |s| {
      var t, b := s[..|s| - 1], s[|s| - 1];
      PrefixFromLastOne(t, n);
      assert Prefix(s, n) == Prefix(t, n) + [false];
      assert s == t + [b];
      assert Prefix(s, n)[..|t|] == Prefix(t, n);
    }
  }

  /** `n` bits are enough to keep all of an address exactly when its last set bit is
      among the first `n`. */
  lemma KeptWhole(ip: IpAddress, n: nat)
    ensures Truncated(ip, n) == ip <==> LastOne(AddressBits(ip)) <= n
  {
    hide Truncated, AddressBits, LastOne, Prefix;
    TruncatedKeepsPrefix(ip, n);
    PrefixFromLastOne(AddressBits(ip), n);
    FamilyKept(ip, n);
    if Prefix(AddressBits(ip), n) == AddressBits(ip) {
      BitsDecideAddress(Truncated(ip, n), ip);
    }
  }

  /** For every IPv4 mask, contiguous or not, the count is the least length that keeps it. */
  lemma V4CountIsLeast(word: bv32, n: nat)
    ensures Truncated(V4(word), n) == V4(word) <==> MaskBits(V4(word)) <= n
  {
    hide Truncated;
    KeptWhole(V4(word), n);
  }

  lemma {:induction false} LastOneConcat(s: seq<bool>, t: seq<bool>)
    ensures LastOne(s + t) == if t == Zeros(|t|) then LastOne(s) else |s| + LastOne(t)
    decreases |t|
  {
    if t == [] {
      assert s + t == s;
    } else {
      var u, b := t[..|t| - 1], t[|t| - 1];
      assert (s + t)[..|s + t| - 1] == s + u;
      if !b {
        LastOneConcat(s, u);
        assert t == u + [b];
        assert t == Zeros(|t|) <==> u == Zeros(|u|);
      }
    }
  }

  /** Whether the words after the first that is not all ones are all zero. */
  predicate RestZero(words: FourWords, i: nat)
    requires i <= 4
    decreases 4 - i
  {
    i == 4
    || (if words[i] == ALL_ONES then RestZero(words, i + 1) else ZeroFrom(words, i + 1))
  }

  predicate ZeroFrom(words: FourWords, i: nat)
    requires i <= 4
    decreases 4 - i
  {
    i == 4 || (words[i] == 0 && ZeroFrom(words, i + 1))
  }

  /** The bits from word `i` on. */
  function BitsFrom(words: FourWords, i: nat): (s: seq<bool>)
    requires i <= 4
    ensures |s| == 32 * (4 - i)
    decreases 4 - i
  {
    if i == 4 then [] else WordBits(words[i]) + BitsFrom(words, i + 1)
  }

  function Ones(n: nat): seq<bool> {
    seq(n, _ => true)
  }

  lemma NotMaskStep(k: nat)
    requires k < 32
    ensures Half(!Mask(k + 1)) == !Mask(k) && Odd(!Mask(k + 1))
  {
  }

  lemma {:induction false} NotMaskBits(k: nat)
    requires k <= 32
    ensures Bits(!Mask(k), k) == Ones(k)
  {
    hide Mask, Half, Odd;
    if k > 0 {
      NotMaskStep(k - 1);
      NotMaskBits(k - 1);
      assert Ones(k) == [true] + Ones(k - 1);
    }
  }

  lemma {:induction false} ReversedOnes(n: nat)
    ensures Reversed(Ones(n)) == Ones(n)
  {
    if n > 0 {
      ReversedOnes(n - 1);
      assert Ones(n)[1..] == Ones(n - 1);
      assert Ones(n) == Ones(n - 1) + [true];
    }
  }

  lemma OnesBits()
    ensures WordBits(ALL_ONES) == Ones(32)
  {
    NotMaskBits(32);
    assert !Mask(32) == ALL_ONES;
    ReversedOnes(32);
  }

  lemma {:induction false} LastOneOfOnes(n: nat, m: nat)
    ensures LastOne(Ones(n) + Zeros(m)) == n
    decreases m
  {
    if m > 0 {
      LastOneOfOnes(n, m - 1);
      assert (Ones(n) + Zeros(m))[..n + m - 1] == Ones(n) + Zeros(m - 1);
    } else {
      assert Ones(n) + Zeros(0) == Ones(n);
    }
  }

  lemma ZerosSplit(s: seq<bool>, t: seq<bool>)
    ensures s + t == Zeros(|s| + |t|) <==> s == Zeros(|s|) && t == Zeros(|t|)
  {
    var z := Zeros(|s| + |t|);
    assert z[..|s|] == Zeros(|s|) && z[|s|..] == Zeros(|t|);
    assert (s + t)[..|s|] == s && (s + t)[|s|..] == t;
  }

  lemma BitsFromStep(words: FourWords, i: nat)
    requires i < 4
    ensures BitsFrom(words, i) == WordBits(words[i]) + BitsFrom(words, i + 1)
  {
    hide WordBits;
  }

  lemma {:induction false} RestBitsZero(words: FourWords, i: nat)
    requires i <= 4
    ensures BitsFrom(words, i) == Zeros(32 * (4 - i)) <==> ZeroFrom(words, i)
    decreases 4 - i
  {
    if i < 4 {
      BitsFromStep(words, i);
      hide WordBits, Zeros, BitsFrom;
      var t := BitsFrom(words, i + 1);
      RestBitsZero(words, i + 1);
      ZerosSplit(WordBits(words[i]), t);
      ZeroBits();
      if WordBits(words[i]) == Zeros(32) {
        WordsDecide(words[i], 0);
      }
    }
  }

  lemma {:induction false} CountedAtMost(words: FourWords, i: nat)
    requires i <= 4
    ensures CountedFrom(words, i) <= 32 * i + LastOne(BitsFrom(words, i))
    ensures CountedFrom(words, i) == 32 * i + LastOne(BitsFrom(words, i)) <==> RestZero(words, i)
    decreases 4 - i
  {
    if i < 4 {
      hide WordBits;
      var rest := BitsFrom(words, i + 1);
      LastOneConcat(WordBits(words[i]), rest);
      RestBitsZero(words, i + 1);
      ZerosHaveNone(rest);
      hide LastOne, Zeros;
      if words[i] == ALL_ONES {
        CountedAtMost(words, i + 1);
        LastOfOnes();
      }
    }
  }

  lemma LastOfOnes()
    ensures LastOne(WordBits(ALL_ONES)) == 32
  {
    OnesBits();
    LastOneOfOnes(32, 0);
    assert Ones(32) + Zeros(0) == Ones(32);
  }

  lemma {:induction false} ZerosHaveNone(s: seq<bool>)
    ensures LastOne(s) == 0 <==> s == Zeros(|s|)
  {
    if s != [] {
      ZerosHaveNone(s[..|s| - 1]);
      assert s == s[..|s| - 1] + [s[|s| - 1]];
      assert Zeros(|s|) == Zeros(|s| - 1) + [false];
    }
  }

  lemma AddressBitsFrom(words: FourWords)
    ensures AddressBits(V6(words)) == BitsFrom(words, 0)
  {
    hide WordBits;
    assert BitsFrom(words, 3) == WordBits(words[3]);
  }

  /** For an IPv6 mask the count is never more than the least length that keeps it, and it
      is that length exactly when nothing follows the first word that is not all ones. */
  lemma V6CountIsLeastIff(words: FourWords)
    ensures (forall n: nat :: Truncated(V6(words), n) == V6(words) ==> MaskBits(V6(words)) <= n)
    ensures (forall n: nat :: Truncated(V6(words), n) == V6(words) <==> MaskBits(V6(words)) <= n)
      <==> RestZero(words, 0)
  {
    hide Truncated, AddressBits, LastOne, CountedFrom;
    var ip := V6(words);
    CountedAtMost(words, 0);
    AddressBitsFrom(words);
    forall n: nat ensures Truncated(ip, n) == ip <==> LastOne(AddressBits(ip)) <= n {
      KeptWhole(ip, n);
    }
    assert Truncated(ip, MaskBits(ip)) == ip <==> LastOne(AddressBits(ip)) <= MaskBits(ip);
  }

  /** The words up to the first that is not all ones. */
  function UpToFirst(words: FourWords, i: nat): (kept: FourWords)
    requires i <= 4
    ensures forall k :: 0 <= k < i ==> kept[k] == words[k]
    decreases 4 - i
  {
    if i == 4 then words
    else if words[i] == ALL_ONES then UpToFirst(words, i + 1)
    else words[..i + 1] + seq(3 - i, _ => 0)
  }

  lemma {:induction false} UpToFirstCounts(words: FourWords, i: nat)
    requires i <= 4
    ensures var kept := UpToFirst(words, i); RestZero(kept, i) && CountedFrom(kept, i) == CountedFrom(words, i)
    decreases 4 - i
  {
    hide LastOne, WordBits;
    if i < 4 {
      if words[i] == ALL_ONES {
        UpToFirstCounts(words, i + 1);
      } else {
        ZeroBehind(UpToFirst(words, i), i + 1);
      }
    }
  }

  lemma {:induction false} ZeroBehind(words: FourWords, i: nat)
    requires i <= 4 && forall k :: i <= k < 4 ==> words[k] == 0
    ensures ZeroFrom(words, i)
    decreases 4 - i
  {
    if i < 4 {
      ZeroBehind(words, i + 1);
    }
  }

  /** In any case it is the least length that keeps the mask without the words that it
      ignores. */
  lemma V6CountIgnores(words: FourWords)
    ensures var kept := V6(UpToFirst(words, 0));
      && MaskBits(V6(words)) == MaskBits(kept)
      && forall n: nat :: Truncated(kept, n) == kept <==> MaskBits(V6(words)) <= n
  {
    hide Truncated, CountedFrom;
    UpToFirstCounts(words, 0);
    V6CountIsLeastIff(UpToFirst(words, 0));
  }

  /** A negative length leaves no address, and no length makes one out of none. */
  lemma NoAddress(ip: IpAddress, length: int)
    ensures Truncated(ip, length).Unspecified? <==> length < 0 || ip.Unspecified?
    ensures MaskBits(Unspecified) == 0
  {
  }

  const V4_ONES := V4(ALL_ONES)
  const V6_ONES := V6([ALL_ONES, ALL_ONES, ALL_ONES, ALL_ONES])

  /** The mask of length `n`, from all ones, has `n` bits; and no length gives more than
      the address has. */
  lemma MaskOfLength(n: nat)
    ensures MaskBits(Truncated(V4_ONES, n)) == if n < 32 then n else 32
    ensures MaskBits(Truncated(V6_ONES, n)) == if n < 128 then n else 128
  {
    V4MaskOfLength(n);
    V6MaskOfLength(n);
  }

  lemma V4MaskOfLength(n: nat)
    ensures MaskBits(Truncated(V4_ONES, n)) == if n < 32 then n else 32
  {
    hide WordBits, LastOne, And, Mask;
    var m := if n < 32 then n else 32;
    OnesBits();
    TruncatedKeepsPrefix(V4_ONES, n);
    assert Prefix(Ones(32), n) == Ones(m) + Zeros(32 - m);
    LastOneOfOnes(m, 32 - m);
    FamilyKept(V4_ONES, n);
    hide Truncated, Prefix;
  }

  lemma V6OnesBits()
    ensures AddressBits(V6_ONES) == Ones(128)
  {
    hide WordBits;
    OnesBits();
  }

  lemma V6MaskOfLength(n: nat)
    ensures MaskBits(Truncated(V6_ONES, n)) == if n < 128 then n else 128
  {
    hide WordBits, LastOne, And, Mask;
    var m := if n < 128 then n else 128;
    V6OnesBits();
    TruncatedKeepsPrefix(V6_ONES, n);
    assert Prefix(Ones(128), n) == Ones(m) + Zeros(128 - m);
    LastOneOfOnes(m, 128 - m);
    FamilyKept(V6_ONES, n);
    var words := Truncated(V6_ONES, n).words;
    assert RestZero(words, 0);
    hide Truncated, Prefix, AddressBits, RestZero;
    CountedAtMost(words, 0);
    AddressBitsFrom(words);
  }

  // ---------- The bit-twiddling count ----------

  /** How many zero bits come before the first set one, from the right. */
  function TrailingZeros(w: bv32, n: nat): (k: nat)
    ensures k <= n
  {
    if n == 0 || Odd(w) then 0 else 1 + TrailingZeros(Half(w), n - 1)
  }

  /** The last set bit of a word, alone. */
  function Lowest(w: bv32): bv32 {
    w & -w
  }

  predicate Meets(w: bv32, mask: bv32) {
    w & mask != 0
  }

  /** The five tests of the source on a word with one bit. */
  function Zeroes(w: bv32): int {
    32
    - (if Meets(w, ALL_ONES) then 1 else 0)
    - (if Meets(w, 0x0000FFFF) then 16 else 0)
    - (if Meets(w, 0x00FF00FF) then 8 else 0)
    - (if Meets(w, 0x0F0F0F0F) then 4 else 0)
    - (if Meets(w, 0x33333333) then 2 else 0)
    - (if Meets(w, 0x55555555) then 1 else 0)
  }

  function Power(k: nat): bv32
    requires k < 32
  {
    (1 as bv32) << k
  }

  lemma PowerStep(k: nat)
    requires k < 31
    ensures Power(k + 1) == Double(Power(k)) && Power(0) == 1
  {
  }

  /** The tests find which bit it is. */
  lemma ZeroesOfPower(k: nat)
    requires k < 32
    ensures Zeroes(Power(k)) == k
  {
  }

  lemma LowestStep(w: bv32)
    ensures Odd(w) ==> Lowest(w) == 1
    ensures !Odd(w) ==> Lowest(w) == Double(Lowest(Half(w)))
  {
  }

  lemma {:induction false} LowestIsPower(w: bv32, n: nat)
    requires w != 0 && Shifted(w, n) == 0 && n <= 32
    ensures TrailingZeros(w, n) < n && Lowest(w) == Power(TrailingZeros(w, n))
    decreases n
  {
    hide Half, Odd, Power, Double, Lowest;
    LowestStep(w);
    PowerStep(0);
    if n > 0 && !Odd(w) {
      HalfNonzero(w);
      LowestIsPower(Half(w), n - 1);
      PowerStep(TrailingZeros(Half(w), n - 1));
    }
  }

  lemma HalfNonzero(w: bv32)
    requires w != 0 && !Odd(w)
    ensures Half(w) != 0
  {
  }

  lemma LastOneSnoc(s: seq<bool>, b: bool)
    ensures LastOne(s + [b]) == if b then |s| + 1 else LastOne(s)
  {
    assert (s + [b])[..|s|] == s;
  }

  lemma BitsStep(w: bv32, n: nat)
    requires n > 0
    ensures Reversed(Bits(w, n)) == Reversed(Bits(Half(w), n - 1)) + [Odd(w)]
  {
    hide Half, Odd;
    var t := Bits(Half(w), n - 1);
    assert Bits(w, n) == [Odd(w)] + t;
    hide Bits;
    assert ([Odd(w)] + t)[1..] == t;
  }

  lemma {:induction false} LastFromTrailing(w: bv32, n: nat)
    ensures LastOne(Reversed(Bits(w, n))) == n - TrailingZeros(w, n)
    decreases n
  {
    hide Half, Odd, Reversed;
    if n > 0 {
      hide Bits, LastOne;
      var h := Half(w);
      LastFromTrailing(h, n - 1);
      BitsStep(w, n);
      LastOneSnoc(Reversed(Bits(h, n - 1)), Odd(w));
      assert TrailingZeros(w, n) == if Odd(w) then 0 else 1 + TrailingZeros(h, n - 1);
    }
  }

  // ---------- The program ----------

  lemma LowestCounts(w: bv32)
    requires w != 0
    ensures LastOne(WordBits(w)) == 32 - Zeroes(Lowest(w))
  {
    LastFromTrailing(w, 32);
    ShiftedAll(w);
    LowestIsPower(w, 32);
    ZeroesOfPower(TrailingZeros(w, 32));
    hide Bits, LastOne, Reversed, Power, TrailingZeros, Shifted, Zeroes, Lowest;
  }

  lemma ZeroCounts()
    ensures LastOne(WordBits(0)) == 0
  {
    ZeroBits();
    ZerosHaveNone(WordBits(0));
    hide WordBits, LastOne;
  }

  method CountWord(w: bv32) returns (count: int)
    ensures count == LastOne(WordBits(w))
  {
    hide LastOne, WordBits, Lowest, Meets;
    if w == 0 {
      ZeroCounts();
      return 0;
    }
    LowestCounts(w);
    var zeroes := 32;
    var lowest := Lowest(w);
    if Meets(lowest, ALL_ONES) { zeroes := zeroes - 1; }
    if Meets(lowest, 0x0000FFFF) { zeroes := zeroes - 16; }
    if Meets(lowest, 0x00FF00FF) { zeroes := zeroes - 8; }
    if Meets(lowest, 0x0F0F0F0F) { zeroes := zeroes - 4; }
    if Meets(lowest, 0x33333333) { zeroes := zeroes - 2; }
    if Meets(lowest, 0x55555555) { zeroes := zeroes - 1; }
    count := 32 - zeroes;
  }

  method CountIPMaskBits(mask: IpAddress) returns (bits: int)
    ensures bits == MaskBits(mask)
  {
    match mask {
      case Unspecified =>
        return 0;
      case V4(word) =>
        bits := CountWord(word);
      case V6(words) =>
        hide WordBits, LastOne;
        var i := 0;
        while i < 4 && words[i] == ALL_ONES
          invariant 0 <= i <= 4 && CountedFrom(words, 0) == CountedFrom(words, i)
        {
          i := i + 1;
        }
        bits := i * 32;
        if i < 4 {
          var more := CountWord(words[i]);
          bits := bits + more;
        }
    }
  }

  method TruncateIP(ip: IpAddress, length: int) returns (r: IpAddress)
    ensures r == Truncated(ip, length)
  {
    if length < 0 {
      return Unspecified;
    }
    match ip {
      case V4(word) =>
        if length > 31 {
          return ip;
        }
        if length == 0 {
          return V4(0);
        }
        r := V4(And(word, Mask(32 - length)));
      case V6(words) =>
        if length > 127 {
          return ip;
        }
        if length == 0 {
          return V6([0, 0, 0, 0]);
        }
        hide And, Mask;
        var cut := words;
        var position := length / 32;
        var innerLength := 32 - (length - position * 32);
        for i := 0 to 4
          invariant forall k :: 0 <= k < 4 ==> cut[k] == if k < i then TruncatedWords(words, length)[k] else words[k]
        {
          if i == position {
            cut := cut[i := And(cut[i], Mask(innerLength))];
          } else if i > position {
            cut := cut[i := 0];
          }
        }
        assert cut == TruncatedWords(words, length);
        r := V6(cut);
      case Unspecified =>
        r := Unspecified;
    }
  }
}
