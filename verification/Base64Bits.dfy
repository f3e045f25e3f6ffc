/** What base64 text stands for, bit by bit, and so what the decoder makes of any text in
    each of its modes. */
module Base64Bits {
  import opened Base64
  import opened Options

  /** The bits of bytes, most significant first. */
  function ByteBits(bytes: Bytes): (s: seq<bool>)
    ensures |s| == 8 * |bytes|
  {
    if bytes == [] then [] else EightBits(bytes[0]) + ByteBits(bytes[1..])
  }

  predicate Set(b: bv8, mask: bv8) {
    b & mask != 0
  }

  function EightBits(b: bv8): (s: seq<bool>)
    ensures |s| == 8
  {
    [Set(b, 0x80), Set(b, 0x40), Set(b, 0x20), Set(b, 0x10),
     Set(b, 0x08), Set(b, 0x04), Set(b, 0x02), Set(b, 0x01)]
  }

  function SixBits(v: bv8): (s: seq<bool>)
    ensures |s| == 6
  {
    [Set(v, 0x20), Set(v, 0x10), Set(v, 0x08), Set(v, 0x04), Set(v, 0x02), Set(v, 0x01)]
  }

  /** The bits that characters of the alphabet stand for, six each. */
  function TextBits(text: Bytes): (s: seq<bool>)
    ensures |s| == 6 * |text|
  {
    if text == [] then [] else SixBits(DecodeTable(text[0])) + TextBits(text[1..])
  }

  /** How many bits make up whole bytes. */
  function WholeBits(text: Bytes): (n: nat)
    ensures n <= 6 * |text|
  {
    8 * (6 * |text| / 8)
  }

  predicate AllAlphabet(text: Bytes) {
    forall i :: 0 <= i < |text| ==> InAlphabet(text[i])
  }

  // ---------- One quantum ----------

  lemma EightAt(b: bv8)
    ensures var s := EightBits(b);
      && s[0] == Set(b, 0x80) && s[1] == Set(b, 0x40) && s[2] == Set(b, 0x20) && s[3] == Set(b, 0x10)
      && s[4] == Set(b, 0x08) && s[5] == Set(b, 0x04) && s[6] == Set(b, 0x02) && s[7] == Set(b, 0x01)
  {
    hide Set;
  }

  lemma SixAt(v: bv8)
    ensures var s := SixBits(v);
      && s[0] == Set(v, 0x20) && s[1] == Set(v, 0x10) && s[2] == Set(v, 0x08)
      && s[3] == Set(v, 0x04) && s[4] == Set(v, 0x02) && s[5] == Set(v, 0x01)
  {
    hide Set;
  }

  /** Eight bits that are the last of `a` and the first of `b`. */
  lemma Gathered(s: seq<bool>, a: seq<bool>, b: seq<bool>, k: nat)
    requires |s| == 8 && |a| == |b| == 6 && k <= 4
    requires forall i :: k <= i < 6 ==> s[i - k] == a[i]
    requires forall i :: 0 <= i < 2 + k ==> s[6 - k + i] == b[i]
    ensures s == a[k..] + b[..2 + k]
  {
  }

  predicate NoneSet(a: seq<bool>, k: nat)
    requires |a| == 6
  {
    forall i :: k <= i < 6 ==> !a[i]
  }

  lemma NoneOf(a: seq<bool>)
    requires |a| == 6
    ensures NoneSet(a, 0) <==> !a[0] && !a[1] && !a[2] && !a[3] && !a[4] && !a[5]
    ensures NoneSet(a, 2) <==> !a[2] && !a[3] && !a[4] && !a[5]
    ensures NoneSet(a, 4) <==> !a[4] && !a[5]
  {
  }

  lemma RawByte0(q0: bv8, q1: bv8)
    requires q0 < 64 && q1 < 64
    ensures Set(Byte0(q0, q1), 0x80) == Set(q0, 0x20) && Set(Byte0(q0, q1), 0x40) == Set(q0, 0x10)
    ensures Set(Byte0(q0, q1), 0x20) == Set(q0, 0x08) && Set(Byte0(q0, q1), 0x10) == Set(q0, 0x04)
    ensures Set(Byte0(q0, q1), 0x08) == Set(q0, 0x02) && Set(Byte0(q0, q1), 0x04) == Set(q0, 0x01)
    ensures Set(Byte0(q0, q1), 0x02) == Set(q1, 0x20) && Set(Byte0(q0, q1), 0x01) == Set(q1, 0x10)
    ensures Byte0(q0, 0) == 0
      <==> !Set(q0, 0x20) && !Set(q0, 0x10) && !Set(q0, 0x08)
           && !Set(q0, 0x04) && !Set(q0, 0x02) && !Set(q0, 0x01)
  {
  }

  lemma Byte0Bits(q0: bv8, q1: bv8)
    requires q0 < 64 && q1 < 64
    ensures EightBits(Byte0(q0, q1)) == SixBits(q0) + SixBits(q1)[..2]
    ensures Byte0(q0, 0) == 0 <==> NoneSet(SixBits(q0), 0)
  {
    hide Byte0, Set, EightBits, SixBits;
    RawByte0(q0, q1);
    EightAt(Byte0(q0, q1));
    SixAt(q0);
    SixAt(q1);
    NoneOf(SixBits(q0));
    hide NoneSet;
    Gathered(EightBits(Byte0(q0, q1)), SixBits(q0), SixBits(q1), 0);
  }

  lemma RawByte1(q1: bv8, q2: bv8)
    requires q1 < 64 && q2 < 64
    ensures Set(Byte1(q1, q2), 0x80) == Set(q1, 0x08) && Set(Byte1(q1, q2), 0x40) == Set(q1, 0x04)
    ensures Set(Byte1(q1, q2), 0x20) == Set(q1, 0x02) && Set(Byte1(q1, q2), 0x10) == Set(q1, 0x01)
    ensures Set(Byte1(q1, q2), 0x08) == Set(q2, 0x20) && Set(Byte1(q1, q2), 0x04) == Set(q2, 0x10)
    ensures Set(Byte1(q1, q2), 0x02) == Set(q2, 0x08) && Set(Byte1(q1, q2), 0x01) == Set(q2, 0x04)
    ensures Byte1(q1, 0) == 0 <==> !Set(q1, 0x08) && !Set(q1, 0x04) && !Set(q1, 0x02) && !Set(q1, 0x01)
  {
  }

  lemma Byte1Bits(q1: bv8, q2: bv8)
    requires q1 < 64 && q2 < 64
    ensures EightBits(Byte1(q1, q2)) == SixBits(q1)[2..] + SixBits(q2)[..4]
    ensures Byte1(q1, 0) == 0 <==> NoneSet(SixBits(q1), 2)
  {
    hide Byte1, Set, EightBits, SixBits;
    RawByte1(q1, q2);
    EightAt(Byte1(q1, q2));
    SixAt(q1);
    SixAt(q2);
    NoneOf(SixBits(q1));
    hide NoneSet;
    Gathered(EightBits(Byte1(q1, q2)), SixBits(q1), SixBits(q2), 2);
  }

  lemma RawByte2(q2: bv8, q3: bv8)
    requires q2 < 64 && q3 < 64
    ensures Set(Byte2(q2, q3), 0x80) == Set(q2, 0x02) && Set(Byte2(q2, q3), 0x40) == Set(q2, 0x01)
    ensures Set(Byte2(q2, q3), 0x20) == Set(q3, 0x20) && Set(Byte2(q2, q3), 0x10) == Set(q3, 0x10)
    ensures Set(Byte2(q2, q3), 0x08) == Set(q3, 0x08) && Set(Byte2(q2, q3), 0x04) == Set(q3, 0x04)
    ensures Set(Byte2(q2, q3), 0x02) == Set(q3, 0x02) && Set(Byte2(q2, q3), 0x01) == Set(q3, 0x01)
    ensures Byte2(q2, 0) == 0 <==> !Set(q2, 0x02) && !Set(q2, 0x01)
  {
  }

  lemma Byte2Bits(q2: bv8, q3: bv8)
    requires q2 < 64 && q3 < 64
    ensures EightBits(Byte2(q2, q3)) == SixBits(q2)[4..] + SixBits(q3)
    ensures Byte2(q2, 0) == 0 <==> NoneSet(SixBits(q2), 4)
  {
    hide Byte2, Set, EightBits, SixBits;
    RawByte2(q2, q3);
    EightAt(Byte2(q2, q3));
    SixAt(q2);
    SixAt(q3);
    NoneOf(SixBits(q2));
    hide NoneSet;
    Gathered(EightBits(Byte2(q2, q3)), SixBits(q2), SixBits(q3), 4);
  }

  /** The bits behind the last whole byte are zero. */
  predicate NothingSpare(text: Bytes) {
    NoneFrom(TextBits(text), WholeBits(text))
  }

  predicate NoneFrom(s: seq<bool>, n: nat) {
    forall i :: n <= i < |s| ==> !s[i]
  }

  lemma TextBitsStep(text: Bytes)
    requires text != []
    ensures TextBits(text) == SixBits(DecodeTable(text[0])) + TextBits(text[1..])
  {
  }

  lemma ByteBitsStep(bytes: Bytes)
    requires bytes != []
    ensures ByteBits(bytes) == EightBits(bytes[0]) + ByteBits(bytes[1..])
  {
  }

  lemma NoBits()
    ensures TextBits([]) == [] && ByteBits([]) == []
  {
  }

  function CharBits(c: bv8): (s: seq<bool>)
    ensures |s| == 6
  {
    SixBits(DecodeTable(c))
  }

  /** The bits of up to four characters. */
  lemma ShortBits(a: bv8, b: bv8, c: bv8, d: bv8)
    ensures TextBits([]) == [] && TextBits([a]) == CharBits(a)
    ensures TextBits([a, b]) == CharBits(a) + CharBits(b)
    ensures TextBits([a, b, c]) == CharBits(a) + CharBits(b) + CharBits(c)
    ensures TextBits([a, b, c, d]) == CharBits(a) + CharBits(b) + CharBits(c) + CharBits(d)
  {
    hide TextBits, CharBits;
    NoBits();
    CharBitsFirst(a, []);
    CharBitsFirst(b, []);
    CharBitsFirst(c, []);
    CharBitsFirst(d, []);
    CharBitsFirst(a, [b]);
    CharBitsFirst(b, [c]);
    CharBitsFirst(c, [d]);
    CharBitsFirst(a, [b, c]);
    CharBitsFirst(b, [c, d]);
    CharBitsFirst(a, [b, c, d]);
    assert [a] + [] == [a] && [b] + [] == [b] && [c] + [] == [c] && [d] + [] == [d];
    assert [a] + [b] == [a, b] && [b] + [c] == [b, c] && [c] + [d] == [c, d];
    assert [a] + [b, c] == [a, b, c] && [b] + [c, d] == [b, c, d] && [a] + [b, c, d] == [a, b, c, d];
  }

  lemma CharBitsFirst(c: bv8, text: Bytes)
    ensures TextBits([c] + text) == CharBits(c) + TextBits(text)
  {
    TextBitsStep([c] + text);
    assert ([c] + text)[1..] == text;
    hide SixBits, DecodeTable, TextBits;
  }

  lemma BytesOf(bytes: Bytes)
    requires |bytes| <= 3
    ensures ByteBits(bytes) == (if |bytes| > 0 then EightBits(bytes[0]) else [])
      + (if |bytes| > 1 then EightBits(bytes[1]) else [])
      + (if |bytes| > 2 then EightBits(bytes[2]) else [])
  {
    hide EightBits, ByteBits;
    NoBits();
    if |bytes| > 0 {
      ByteBitsStep(bytes);
    }
    if |bytes| > 1 {
      ByteBitsStep(bytes[1..]);
      assert bytes[1..][1..] == bytes[2..];
    }
    if |bytes| > 2 {
      ByteBitsStep(bytes[2..]);
      assert bytes[2..][1..] == [];
    }
  }

  lemma FourWhole(a: seq<bool>, b: seq<bool>, c: seq<bool>, d: seq<bool>)
    requires |a| == |b| == |c| == |d| == 6
    ensures a + b[..2] + (b[2..] + c[..4]) + (c[4..] + d) == a + b + c + d
    ensures a + b[..2] + (b[2..] + c[..4]) == (a + b + c)[..16]
    ensures a + b[..2] == (a + b)[..8]
  {
  }

  lemma TwoValues(a: bv8, b: bv8)
    requires a < 64 && b < 64
    ensures ByteBits(WholeBytes([a, b])) == (SixBits(a) + SixBits(b))[..8]
    ensures SpareBits([a, b]) == 0 <==> NoneSet(SixBits(b), 2)
  {
    hide EightBits, SixBits, Byte0, Byte1, Byte2, ByteBits;
    Byte0Bits(a, b);
    Byte1Bits(b, 0);
    BytesOf([Byte0(a, b)]);
    FourWhole(SixBits(a), SixBits(b), SixBits(b), SixBits(b));
    assert WholeBytes([a, b]) == [Byte0(a, b)];
  }

  lemma ThreeValues(a: bv8, b: bv8, c: bv8)
    requires a < 64 && b < 64 && c < 64
    ensures ByteBits(WholeBytes([a, b, c])) == (SixBits(a) + SixBits(b) + SixBits(c))[..16]
    ensures SpareBits([a, b, c]) == 0 <==> NoneSet(SixBits(c), 4)
  {
    hide EightBits, SixBits, Byte0, Byte1, Byte2, ByteBits;
    Byte0Bits(a, b);
    Byte1Bits(b, c);
    Byte2Bits(c, 0);
    BytesOf([Byte0(a, b), Byte1(b, c)]);
    FourWhole(SixBits(a), SixBits(b), SixBits(c), SixBits(c));
    assert WholeBytes([a, b, c]) == [Byte0(a, b), Byte1(b, c)];
  }

  lemma FourValues(a: bv8, b: bv8, c: bv8, d: bv8)
    requires a < 64 && b < 64 && c < 64 && d < 64
    ensures ByteBits(WholeBytes([a, b, c, d])) == SixBits(a) + SixBits(b) + SixBits(c) + SixBits(d)
  {
    hide EightBits, SixBits, Byte0, Byte1, Byte2, ByteBits;
    Byte0Bits(a, b);
    Byte1Bits(b, c);
    Byte2Bits(c, d);
    BytesOf([Byte0(a, b), Byte1(b, c), Byte2(c, d)]);
    FourWhole(SixBits(a), SixBits(b), SixBits(c), SixBits(d));
    assert WholeBytes([a, b, c, d]) == [Byte0(a, b), Byte1(b, c), Byte2(c, d)];
  }

  lemma OneValue(a: bv8)
    requires a < 64
    ensures ByteBits(WholeBytes([a])) == SixBits(a)[..0]
    ensures SpareBits([a]) == 0 <==> NoneSet(SixBits(a), 0)
  {
    hide EightBits, SixBits, Byte0, Byte1, Byte2;
    Byte0Bits(a, 0);
    assert WholeBytes([a]) == [];
  }

  lemma SpareTail(t: seq<bool>, front: seq<bool>, last: seq<bool>, k: nat)
    requires |last| == 6 && k <= 6 && t == front + last
    ensures NoneFrom(t, |front| + k) <==> NoneSet(last, k)
  {
    assert forall i :: 0 <= i < 6 ==> t[|front| + i] == last[i];
  }

  lemma NoValues()
    ensures ByteBits(WholeBytes([])) == [] && SpareBits([]) == 0
  {
  }

  lemma NoneSpare(q: Bytes)
    requires |q| >= 4
    ensures SpareBits(q) == 0
  {
  }

  /** The whole bytes in a quantum are the bits of its characters, in order; and the spare
      ones are those behind them. */
  predicate QuantumIs(text: Bytes) {
    && ByteBits(WholeBytes(Values(text))) == TextBits(text)[..WholeBits(text)]
    && (SpareBits(Values(text)) == 0 <==> NothingSpare(text))
  }

  lemma OneCharacter(a: bv8)
    requires InAlphabet(a)
    ensures QuantumIs([a])
  {
    hide EightBits, SixBits, Byte0, Byte1, Byte2, DecodeTable, ByteBits, TextBits, WholeBytes, SpareBits, NoneSet,
      NoneFrom;
    OneValue(DecodeTable(a));
    ShortBits(a, a, a, a);
    assert Values([a]) == [DecodeTable(a)];
    SpareTail(CharBits(a), [], CharBits(a), 0);
  }

  lemma TwoCharacters(a: bv8, b: bv8)
    requires InAlphabet(a) && InAlphabet(b)
    ensures QuantumIs([a, b])
  {
    hide EightBits, SixBits, Byte0, Byte1, Byte2, DecodeTable, ByteBits, TextBits, WholeBytes, SpareBits, NoneSet,
      NoneFrom;
    TwoValues(DecodeTable(a), DecodeTable(b));
    ShortBits(a, b, a, a);
    assert Values([a, b]) == [DecodeTable(a), DecodeTable(b)];
    SpareTail(CharBits(a) + CharBits(b), CharBits(a), CharBits(b), 2);
  }

  lemma ThreeCharacters(a: bv8, b: bv8, c: bv8)
    requires InAlphabet(a) && InAlphabet(b) && InAlphabet(c)
    ensures QuantumIs([a, b, c])
  {
    hide EightBits, SixBits, Byte0, Byte1, Byte2, DecodeTable, ByteBits, TextBits, WholeBytes, SpareBits, NoneSet,
      NoneFrom;
    ThreeValues(DecodeTable(a), DecodeTable(b), DecodeTable(c));
    ShortBits(a, b, c, a);
    assert Values([a, b, c]) == [DecodeTable(a), DecodeTable(b), DecodeTable(c)];
    SpareTail(CharBits(a) + CharBits(b) + CharBits(c), CharBits(a) + CharBits(b), CharBits(c), 4);
  }

  lemma FourCharacters(a: bv8, b: bv8, c: bv8, d: bv8)
    requires InAlphabet(a) && InAlphabet(b) && InAlphabet(c) && InAlphabet(d)
    ensures QuantumIs([a, b, c, d])
  {
    hide EightBits, SixBits, Byte0, Byte1, Byte2, DecodeTable, ByteBits, TextBits, WholeBytes, SpareBits, NoneSet;
    FourValues(DecodeTable(a), DecodeTable(b), DecodeTable(c), DecodeTable(d));
    ShortBits(a, b, c, d);
    assert Values([a, b, c, d]) == [DecodeTable(a), DecodeTable(b), DecodeTable(c), DecodeTable(d)];
    NoneSpare([DecodeTable(a), DecodeTable(b), DecodeTable(c), DecodeTable(d)]);
  }

  lemma QuantumBits(text: Bytes)
    requires |text| <= 4 && AllAlphabet(text)
    ensures QuantumIs(text)
  {
    hide QuantumIs, DecodeTable;
    if |text| == 0 {
      assert text == [];
      NoCharacters();
    } else if |text| == 1 {
      assert text == [text[0]];
      OneCharacter(text[0]);
    } else if |text| == 2 {
      assert text == [text[0], text[1]];
      TwoCharacters(text[0], text[1]);
    } else if |text| == 3 {
      assert text == [text[0], text[1], text[2]];
      ThreeCharacters(text[0], text[1], text[2]);
    } else {
      assert text == [text[0], text[1], text[2], text[3]];
      FourCharacters(text[0], text[1], text[2], text[3]);
    }
  }

  lemma NoCharacters()
    ensures QuantumIs([])
  {
    NoValues();
    NoBits();
    assert Values([]) == [];
  }

  // ---------- Whole texts ----------

  /** The characters of the alphabet that a text begins with. */
  function Front(data: Bytes): (text: Bytes)
    ensures |text| <= |data| && text == data[..|text|] && AllAlphabet(text)
    ensures |text| < |data| ==> !InAlphabet(data[|text|])
  {
    if data == [] || !InAlphabet(data[0]) then [] else [data[0]] + Front(data[1..])
  }

  function LeadPads(s: Bytes): nat {
    if s == [] || s[0] != PAD_CHAR then 0 else 1 + LeadPads(s[1..])
  }

  predicate NoSpaces(data: Bytes) {
    forall i :: 0 <= i < |data| ==> NotSpace(data[i])
  }

  /** The pads that fill up a last quantum of two or three characters. */
  predicate FilledUp(f: Flags, data: Bytes) {
    var text := Front(data);
    var r := |text| % 4;
    f.pad != PadNo && r >= 2 && r + LeadPads(data[|text|..]) >= 4
  }

  /** What is decoded, how much of the text is used, and the verdict: the bits of the
      characters up to the first foreign one, as far as they make up bytes; those characters
      and the pads that fill up the last quantum; and whether no bits are left over, unless
      that does not matter, and no pad is missing that has to be there. */
  predicate DecodesTo(f: Flags, data: Bytes, d: Decoded) {
    var text := Front(data);
    var r := |text| % 4;
    && ByteBits(d.bytes) == TextBits(text)[..WholeBits(text)]
    && d.used == |text| + (if FilledUp(f, data) then 4 - r else 0)
    && (d.success <==>
          if r == 0 then text == data || f.pad != PadYes
          else (f.term == TermAny || NothingSpare(text)) && (f.pad == PadYes ==> FilledUp(f, data)))
  }

  /** Foreign characters end the text, and whitespace is out of the question. */
  predicate Literally(f: Flags, data: Bytes) {
    NoSpaces(data) && (f.parse != ParseAny || AllAlphabet(data))
  }

  lemma {:induction false} FrontAll(data: Bytes)
    requires AllAlphabet(data)
    ensures Front(data) == data
  {
  }

  lemma ScanStops(parse: ParseFlag, ip: bool, data: Bytes, s: Scan)
    requires s.n <= |data| && |s.q| < 4
    requires s.n < |data| ==> TakeChar(parse, ip, data[s.n], s) == None
    ensures ScanFrom(parse, ip, data, s) == s
  {
    hide TakeChar;
  }

  lemma ScanGoesOn(parse: ParseFlag, ip: bool, data: Bytes, s: Scan, s': Scan)
    requires s.n < |data| && |s.q| < 4 && TakeChar(parse, ip, data[s.n], s) == Some(s')
    ensures s'.n <= |data| ==> ScanFrom(parse, ip, data, s) == ScanFrom(parse, ip, data, s')
  {
    hide TakeChar;
  }

  lemma ForeignStops(parse: ParseFlag, ip: bool, c: bv8, s: Scan)
    requires parse != ParseAny && NotSpace(c) && !InAlphabet(c) && |s.q| < 4 && |s.q| + s.padLen <= 4
    ensures TakeChar(parse, ip, c, s)
      == if c == PAD_CHAR && !ip && |s.q| >= 2 && |s.q| + s.padLen < 4
         then Some(s.(n := s.n + 1, padLen := s.padLen + 1, padStart := if s.padLen == 0 then s.n else s.padStart))
         else None
  {
  }

  lemma ValueStops(parse: ParseFlag, ip: bool, c: bv8, s: Scan)
    requires parse != ParseAny && s.padLen > 0 && InAlphabet(c)
    ensures TakeChar(parse, ip, c, s) == None
  {
  }

  /** The scan behind the characters: up to as many pads as there is room for. */
  lemma {:induction false} ScanPads(parse: ParseFlag, ip: bool, data: Bytes, s: Scan)
    requires s.n <= |data| && |s.q| < 4 && |s.q| + s.padLen <= 4
    requires parse != ParseAny || s.n == |data|
    requires NoSpaces(data) && (s.padLen == 0 && s.n < |data| ==> !InAlphabet(data[s.n]))
    ensures var pads := LeadPads(data[s.n..]);
      var more := if ip || |s.q| < 2 then 0 else if pads < 4 - |s.q| - s.padLen then pads else 4 - |s.q| - s.padLen;
      ScanFrom(parse, ip, data, s)
      == s.(n := s.n + more, padLen := s.padLen + more,
            padStart := if s.padLen == 0 && more > 0 then s.n else s.padStart)
    decreases |data| - s.n
  {
    if s.n == |data| {
      ScanStops(parse, ip, data, s);
    } else {
      var c := data[s.n];
      assert data[s.n..][0] == c && data[s.n..][1..] == data[s.n + 1..];
      PadIsForeign(c);
      hide InAlphabet, NotSpace, TakeChar, ScanFrom;
      if InAlphabet(c) {
        ValueStops(parse, ip, c, s);
        ScanStops(parse, ip, data, s);
      } else {
        ForeignStops(parse, ip, c, s);
        if c == PAD_CHAR && !ip && |s.q| >= 2 && |s.q| + s.padLen < 4 {
          var s' := TakeChar(parse, ip, c, s).value;
          ScanGoesOn(parse, ip, data, s, s');
          ScanPads(parse, ip, data, s');
        } else {
          ScanStops(parse, ip, data, s);
        }
      }
    }
  }

  lemma PadIsForeign(c: bv8)
    ensures c == PAD_CHAR ==> !InAlphabet(c)
  {
  }

  /** The last quantum of a text, when fewer than four characters are left. */
  lemma {:induction false} LastQuantum(f: Flags, data: Bytes)
    requires Literally(f, data) && |Front(data)| < 4
    ensures var text := Front(data);
      NextQuantum(f.parse, f.pad == PadNo, data)
      == Quantum(Values(text), |text| + (if FilledUp(f, data) then 4 - |text| else 0), FilledUp(f, data))
  {
    hide InAlphabet, NotSpace, DecodeTable, ScanFrom;
    var text, ip := Front(data), f.pad == PadNo;
    var k := |text|;
    assert forall i :: 0 <= i < k ==> data[i] == text[i];
    ScanValues(f.parse, ip, data, k);
    assert seq(k, i requires 0 <= i < k => DecodeTable(data[i])) == Values(text);
    if f.parse == ParseAny {
      FrontAll(data);
    }
    hide Values;
    ScanPads(f.parse, ip, data, Scan(k, Values(text), 0, 0));
  }

  lemma {:induction false} TextBitsConcat(a: Bytes, b: Bytes)
    ensures TextBits(a + b) == TextBits(a) + TextBits(b)
  {
    hide SixBits, DecodeTable;
    if a == [] {
      assert a + b == b;
    } else {
      TextBitsConcat(a[1..], b);
      assert (a + b)[1..] == a[1..] + b && (a + b)[0] == a[0];
    }
  }

  lemma {:induction false} ByteBitsConcat(a: Bytes, b: Bytes)
    ensures ByteBits(a + b) == ByteBits(a) + ByteBits(b)
  {
    hide EightBits;
    if a == [] {
      assert a + b == b;
    } else {
      ByteBitsConcat(a[1..], b);
      assert (a + b)[1..] == a[1..] + b && (a + b)[0] == a[0];
    }
  }

  lemma Behind(front: seq<bool>, more: seq<bool>, m: nat)
    requires m <= |more|
    ensures (front + more)[..|front| + m] == front + more[..m]
    ensures NoneFrom(front + more, |front| + m) <==> NoneFrom(more, m)
  {
    var all := front + more;
    assert forall i :: 0 <= i < |more| ==> more[i] == all[|front| + i];
    assert forall i :: |front| <= i < |all| ==> all[i] == more[i - |front|];
  }

  lemma FourMore(four: Bytes, text: Bytes)
    requires |four| == 4
    ensures WholeBits(four + text) == 24 + WholeBits(text) && |four + text| % 4 == |text| % 4
  {
    FourMoreOf(|text|);
  }

  lemma FourMoreOf(n: nat)
    ensures 6 * (n + 4) / 8 == 3 + 6 * n / 8 && (n + 4) % 4 == n % 4
  {
  }

  /** Four characters in front of a text add three bytes' bits in front. */
  lemma FourInFront(four: Bytes, text: Bytes)
    requires |four| == 4
    ensures TextBits(four + text)[..WholeBits(four + text)] == TextBits(four) + TextBits(text)[..WholeBits(text)]
    ensures NothingSpare(four + text) <==> NothingSpare(text)
    ensures |four + text| % 4 == |text| % 4
  {
    TextBitsConcat(four, text);
    FourMore(four, text);
    hide TextBits, WholeBits, NoneFrom;
    Behind(TextBits(four), TextBits(text), WholeBits(text));
  }

  lemma FrontStep(data: Bytes)
    requires Front(data) != []
    ensures Front(data) == [data[0]] + Front(data[1..]) && InAlphabet(data[0])
  {
    hide InAlphabet;
  }

  lemma {:induction false} FrontBehind(data: Bytes, n: nat)
    requires |Front(data)| >= n
    ensures Front(data) == data[..n] + Front(data[n..]) && AllAlphabet(data[..n])
    decreases n
  {
    hide InAlphabet, Front;
    if n == 0 {
      assert data[..0] == [] && data[0..] == data && [] + Front(data) == Front(data);
    } else {
      FrontStep(data);
      FrontBehind(data[1..], n - 1);
      var front, rest := data[1..n], Front(data[n..]);
      assert data[1..][..n - 1] == front && data[1..][n - 1..] == data[n..];
      assert data[..n] == [data[0]] + front && [data[0]] + (front + rest) == [data[0]] + front + rest;
    }
  }

  /** In strict mode every text, and in the others every text without characters to ignore,
      is decoded to the bits that it stands for. */
  lemma {:induction false} DecodesLiterally(f: Flags, data: Bytes)
    requires Literally(f, data)
    ensures DecodesTo(f, data, DecodeAll(f, data))
    decreases |data|
  {
    hide InAlphabet, NotSpace, TextBits, ByteBits, NothingSpare, SpareBits, WholeBytes, NextQuantum, ScanFrom;
    if |Front(data)| >= 4 {
      FrontBehind(data, 4);
      DecodesLiterally(f, data[4..]);
      FullStep(f, data);
    } else {
      LastStep(f, data);
    }
  }

  lemma FullStep(f: Flags, data: Bytes)
    requires Literally(f, data) && |Front(data)| >= 4 && DecodesTo(f, data[4..], DecodeAll(f, data[4..]))
    ensures DecodesTo(f, data, DecodeAll(f, data))
  {
    hide InAlphabet, NotSpace, TextBits, ByteBits, NothingSpare, SpareBits, WholeBytes, NextQuantum, LeadPads;
    var four, rest := data[..4], data[4..];
    FrontBehind(data, 4);
    assert data[|Front(data)|..] == rest[|Front(rest)|..];
    assert forall i :: 0 <= i < 4 ==> four[i] == data[i];
    FullQuantum(f, data);
    QuantumBits(four);
    FourInFront(four, Front(rest));
    ByteBitsConcat(WholeBytes(Values(four)), DecodeAll(f, rest).bytes);
    assert Front(data) == data <==> Front(rest) == rest;
  }

  lemma FullQuantum(f: Flags, data: Bytes)
    requires |data| >= 4 && AllAlphabet(data[..4])
    ensures NextQuantum(f.parse, f.pad == PadNo, data) == Quantum(Values(data[..4]), 4, true)
    ensures TextBits(data[..4])[..WholeBits(data[..4])] == TextBits(data[..4])
  {
    assert forall i :: 0 <= i < 4 ==> data[..4][i] == data[i];
    WholeQuantum(f.parse, f.pad == PadNo, data);
    hide DecodeTable;
    assert Values(data[..4])
      == [DecodeTable(data[0]), DecodeTable(data[1]), DecodeTable(data[2]), DecodeTable(data[3])];
  }

  lemma LastStep(f: Flags, data: Bytes)
    requires Literally(f, data) && |Front(data)| < 4
    ensures DecodesTo(f, data, DecodeAll(f, data))
  {
    hide InAlphabet, NotSpace, TextBits, ByteBits, NothingSpare, SpareBits, WholeBytes, NextQuantum, LeadPads;
    LastQuantum(f, data);
    QuantumBits(Front(data));
    if |Front(data)| == 0 {
      NoCharacters();
      NoValues();
      assert Values([]) == [];
    }
  }

  // ---------- What the modes have in common ----------

  lemma {:induction false} ByteBitsDecide(a: Bytes, b: Bytes)
    requires ByteBits(a) == ByteBits(b)
    ensures a == b
  {
    hide EightBits;
    if a != [] && b != [] {
      ByteBitsStep(a);
      ByteBitsStep(b);
      assert ByteBits(a)[..8] == EightBits(a[0]) && ByteBits(a)[8..] == ByteBits(a[1..]);
      assert ByteBits(b)[..8] == EightBits(b[0]) && ByteBits(b)[8..] == ByteBits(b[1..]);
      ByteBitsDecide(a[1..], b[1..]);
      EightDecide(a[0], b[0]);
    }
  }

  lemma EightDecide(a: bv8, b: bv8)
    requires EightBits(a) == EightBits(b)
    ensures a == b
  {
    EightAt(a);
    EightAt(b);
    hide EightBits;
    MasksDecide(a, b);
  }

  lemma MasksDecide(a: bv8, b: bv8)
    requires Set(a, 0x80) == Set(b, 0x80) && Set(a, 0x40) == Set(b, 0x40)
    requires Set(a, 0x20) == Set(b, 0x20) && Set(a, 0x10) == Set(b, 0x10)
    requires Set(a, 0x08) == Set(b, 0x08) && Set(a, 0x04) == Set(b, 0x04)
    requires Set(a, 0x02) == Set(b, 0x02) && Set(a, 0x01) == Set(b, 0x01)
    ensures a == b
  {
  }

  /** With everything else to be ignored, the bits are those of the alphabet's characters. */
  lemma AnyDecodesBits(f: Flags, data: Bytes)
    requires f.parse == ParseAny
    ensures var text := OnlyAlphabet(data);
      ByteBits(Decode(f, data).bytes) == TextBits(text)[..WholeBits(text)]
  {
    var text := OnlyAlphabet(data);
    AnyDecodeAll(f, data);
    SelectOnlyKept(data, InAlphabet);
    SelectAll(text, InAlphabet);
    FrontAll(text);
    AlphabetHasNoSpaces(text);
    DecodesLiterally(f, text);
    hide InAlphabet, TextBits, ByteBits, DecodeAll, Select;
  }

  lemma AlphabetHasNoSpaces(text: Bytes)
    requires AllAlphabet(text)
    ensures NoSpaces(text)
  {
  }

  /** Behind whitespace, where that is to be ignored. */
  lemma WhiteDecodesBits(f: Flags, data: Bytes)
    requires f.parse == ParseWhite
    ensures var text := Front(Strip(data));
      ByteBits(Decode(f, data).bytes) == TextBits(text)[..WholeBits(text)]
  {
    WhiteIgnoresSpaces(f, data);
    SelectOnlyKept(data, NotSpace);
    DecodesLiterally(f, Strip(data));
    hide InAlphabet, NotSpace, TextBits, ByteBits, DecodeAll, Select;
  }

  /** An encoding has its characters in front and only pads behind them. */
  lemma {:induction false} EncodingShape(data: Bytes)
    ensures NoSpaces(Encode(data)) && OnlyAlphabet(Encode(data)) == Front(Encode(data))
    decreases |data|
  {
    if data != [] {
      var k := if |data| < 3 then |data| else 3;
      var group, rest := EncodeGroup(data[..k]), Encode(data[k..]);
      EncodeStep(data, k);
      GroupShape(data[..k]);
      hide DecodeTable, EncodeGroup, Encode, NotSpace;
      if k == 3 {
        EncodingShape(data[3..]);
        SelectConcat(group, rest, InAlphabet);
        SelectAll(group, InAlphabet);
        hide Front, InAlphabet, Select;
        FrontOfBoth(group, rest);
      } else {
        assert data[k..] == [];
        NothingEncoded();
        assert group + rest == group;
      }
    }
  }

  lemma NothingEncoded()
    ensures Encode([]) == []
  {
  }

  lemma {:induction false} FrontOfBoth(a: Bytes, b: Bytes)
    requires AllAlphabet(a)
    ensures Front(a + b) == a + Front(b)
  {
    hide InAlphabet;
    if a == [] {
      assert a + b == b;
    } else {
      FrontOfBoth(a[1..], b);
      assert (a + b)[1..] == a[1..] + b && (a + b)[0] == a[0];
    }
  }

  lemma GroupShape(g: Bytes)
    requires 1 <= |g| <= 3
    ensures NoSpaces(EncodeGroup(g)) && OnlyAlphabet(EncodeGroup(g)) == Front(EncodeGroup(g))
    ensures |g| == 3 ==> AllAlphabet(EncodeGroup(g))
  {
    hide First, Second, Third, Fourth, EncodeTable;
    var s := EncodeGroup(g);
    PadIsForeign(PAD_CHAR);
    GroupKinds(s, |g| + 1);
  }

  lemma NeitherIsSpace(c: bv8)
    requires InAlphabet(c) || c == PAD_CHAR
    ensures NotSpace(c)
  {
  }

  lemma GroupKinds(s: Bytes, k: nat)
    requires |s| == 4 && 2 <= k <= 4
    requires forall i :: 0 <= i < k ==> InAlphabet(s[i])
    requires forall i :: k <= i < 4 ==> s[i] == PAD_CHAR
    ensures NoSpaces(s) && OnlyAlphabet(s) == Front(s)
  {
    forall i | 0 <= i < 4 ensures NotSpace(s[i]) {
      NeitherIsSpace(s[i]);
    }
    hide InAlphabet, NotSpace;
    var front, pads := s[..k], s[k..];
    assert s == front + pads;
    assert forall i :: 0 <= i < |pads| ==> pads[i] == PAD_CHAR;
    SelectConcat(front, pads, InAlphabet);
    SelectAll(front, InAlphabet);
    FrontOfBoth(front, pads);
    PadsDropped(pads);
    assert front + [] == front;
  }

  lemma {:induction false} PadsDropped(pads: Bytes)
    requires forall i :: 0 <= i < |pads| ==> pads[i] == PAD_CHAR
    ensures OnlyAlphabet(pads) == [] && Front(pads) == []
    decreases |pads|
  {
    PadIsForeign(PAD_CHAR);
    if pads != [] {
      PadsDropped(pads[1..]);
    }
  }

  /** Whatever the mode, what was encoded is decoded. */
  lemma EncodedIsDecoded(f: Flags, data: Bytes)
    ensures Decode(f, Encode(data)).bytes == data
  {
    var s := Encode(data);
    EncodingShape(data);
    StrictDecodesEncoding(data);
    DecodesLiterally(STRICT, s);
    if f.parse == ParseAny {
      AnyDecodesBits(f, s);
    } else {
      DecodesLiterally(f, s);
    }
    hide Encode, DecodeAll, TextBits, ByteBits, NothingSpare, Front, Select, LeadPads;
    ByteBitsDecide(Decode(f, s).bytes, data);
  }
}
