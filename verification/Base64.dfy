/** Base64 (sections 4 and 3 of RFC 4648): a plain encoder and a decoder that can
    be told how to treat foreign characters, padding, and the end of the input.
    The two character tables of the source are written as functions. */
module Base64 {
  import opened Options

  type Bytes = seq<bv8>

  const PAD_CHAR: bv8 := 61

  // The classes of the decoding table.
  const PD: bv8 := 0xFD
  const SP: bv8 := 0xFE
  const IL: bv8 := 0xFF

  function EncodeTable(v: bv8): (c: bv8)
    requires v < 64
    ensures DecodeTable(c) == v && c != PAD_CHAR
  {
    if v < 26 then v + 65        // 'A'..'Z'
    else if v < 52 then v + 71   // 'a'..'z'
    else if v < 62 then v - 4    // '0'..'9'
    else if v == 62 then 43      // '+'
    else 47                      // '/'
  }

  function DecodeTable(c: bv8): (v: bv8)
    ensures v < 64 || v == PD || v == SP || v == IL
    ensures v == PD <==> c == PAD_CHAR
  {
    if 65 <= c <= 90 then c - 65
    else if 97 <= c <= 122 then c - 71
    else if 48 <= c <= 57 then c + 4
    else if c == 43 then 62
    else if c == 47 then 63
    else if c == PAD_CHAR then PD
    else if 9 <= c <= 13 || c == 32 then SP
    else IL
  }

  predicate InAlphabet(c: bv8) {
    DecodeTable(c) < 64
  }

  /** The alphabet: the capital letters in order, from 'A' on, the small letters, from 'a' on,
      the digits, from '0' on, '+' and '/'. */
  lemma TableIsAlphabet(v: bv8)
    ensures EncodeTable(0) == 65 && EncodeTable(26) == 97 && EncodeTable(52) == 48
    ensures EncodeTable(62) == 43 && EncodeTable(63) == 47
    ensures v < 61 && v != 25 && v != 51 ==> EncodeTable(v + 1) == EncodeTable(v) + 1
  {
  }

  /** The tables are inverse to each other on the alphabet. */
  lemma EncodeOfDecode(c: bv8)
    requires InAlphabet(c)
    ensures EncodeTable(DecodeTable(c)) == c
  {
  }

  // ---------- Encoding ----------

  function First(b0: bv8): (v: bv8)
    ensures v < 64
  {
    (b0 >> 2) & 0x3f
  }

  function Second(b0: bv8, b1: bv8): (v: bv8)
    ensures v < 64
  {
    ((b0 << 4) & 0x3f) | ((b1 >> 4) & 0x0f)
  }

  function Third(b1: bv8, b2: bv8): (v: bv8)
    ensures v < 64
  {
    ((b1 << 2) & 0x3f) | ((b2 >> 6) & 0x03)
  }

  function Fourth(b2: bv8): (v: bv8)
    ensures v < 64
  {
    b2 & 0x3f
  }

  /** Up to three bytes in four characters. */
  function EncodeGroup(b: Bytes): (s: Bytes)
    requires 1 <= |b| <= 3
    ensures |s| == 4
  {
    var b1 := if |b| > 1 then b[1] else 0;
    var b2 := if |b| > 2 then b[2] else 0;
    [EncodeTable(First(b[0])),
     EncodeTable(Second(b[0], b1)),
     if |b| > 1 then EncodeTable(Third(b1, b2)) else PAD_CHAR,
     if |b| > 2 then EncodeTable(Fourth(b2)) else PAD_CHAR]
  }

  function Encode(data: Bytes): Bytes
    decreases |data|
  {
    if data == [] then []
    else if |data| <= 3 then EncodeGroup(data)
    else EncodeGroup(data[..3]) + Encode(data[3..])
  }

  lemma {:induction false} EncodeLength(data: Bytes)
    ensures |Encode(data)| == (|data| + 2) / 3 * 4
    decreases |data|
  {
    if |data| > 3 {
      EncodeLength(data[3..]);
    }
  }

  lemma NothingAfter(b: bv8)
    ensures Second(b, 0) == (b << 4) & 0x3f && Third(b, 0) == (b << 2) & 0x3f
  {
  }

  lemma EncodeStep(rest: Bytes, k: nat)
    requires rest != [] && k == if |rest| < 3 then |rest| else 3
    ensures Encode(rest) == EncodeGroup(rest[..k]) + Encode(rest[k..])
  {
    hide EncodeGroup;
    if |rest| <= 3 {
      assert rest[..k] == rest && rest[k..] == [];
    }
  }

  lemma EncodeAdvance(data: Bytes, done: Bytes, from: nat, i: nat)
    requires from < |data| && i == if from + 3 <= |data| then from + 3 else |data|
    requires done + Encode(data[from..]) == Encode(data)
    ensures done + EncodeGroup(data[from..i]) + Encode(data[i..]) == Encode(data)
    ensures |Encode(data[from..])| == 4 + |Encode(data[i..])|
  {
    hide EncodeGroup, Encode;
    var rest := data[from..];
    EncodeStep(rest, i - from);
    assert rest[..i - from] == data[from..i] && rest[i - from..] == data[i..];
  }

  /** One round of the encoder: the characters of the next group of bytes. */
  method EncodeNext(data: Bytes, start: nat) returns (i: nat, s0: bv8, s1: bv8, s2: bv8, s3: bv8)
    requires start < |data|
    ensures i == if start + 3 <= |data| then start + 3 else |data|
    ensures [s0, s1, s2, s3] == EncodeGroup(data[start..i])
  {
    ghost var b1 := if start + 1 < |data| then data[start + 1] else 0;
    ghost var b2 := if start + 2 < |data| then data[start + 2] else 0;
    i := start;
    s0, s2, s3 := EncodeTable(First(data[i])), PAD_CHAR, PAD_CHAR;
    NothingAfter(data[start]);
    var c := (data[i] << 4) & 0x3f;
    i := i + 1;
    if i < |data| {
      c := c | ((data[i] >> 4) & 0x0f);
    }
    assert c == Second(data[start], b1);
    s1 := EncodeTable(c);
    hide Second;
    if i < |data| {
      NothingAfter(data[i]);
      c := (data[i] << 2) & 0x3f;
      i := i + 1;
      if i < |data| {
        c := c | ((data[i] >> 6) & 0x03);
      }
      assert c == Third(b1, b2);
      s2 := EncodeTable(c);
    }
    hide Third;
    if i < |data| {
      s3 := EncodeTable(data[i] & 0x3f);
      i := i + 1;
    }
    hide EncodeTable;
    GroupOf(data[start..i], data[start], b1, b2);
  }

  lemma GroupOf(g: Bytes, b0: bv8, b1: bv8, b2: bv8)
    requires 1 <= |g| <= 3 && g[0] == b0
    requires b1 == (if |g| > 1 then g[1] else 0) && b2 == (if |g| > 2 then g[2] else 0)
    ensures EncodeGroup(g) == [
      EncodeTable(First(b0)), EncodeTable(Second(b0, b1)),
      if |g| > 1 then EncodeTable(Third(b1, b2)) else PAD_CHAR,
      if |g| > 2 then EncodeTable(Fourth(b2)) else PAD_CHAR]
  {
    hide EncodeTable, First, Second, Third, Fourth;
  }

  method EncodeFromArray(data: Bytes) returns (text: Bytes)
    ensures text == Encode(data)
  {
    hide EncodeGroup;
    var result := new bv8[(|data| + 2) / 3 * 4](_ => 0);
    var i, dest := 0, 0;
    EncodeLength(data);
    assert data[0..] == data;
    while i < |data|
      invariant i <= |data| && dest + |Encode(data[i..])| == result.Length
      invariant result[..dest] + Encode(data[i..]) == Encode(data)
      decreases |data| - i
    {
      ghost var done := result[..dest];
      var next, s0, s1, s2, s3 := EncodeNext(data, i);
      EncodeAdvance(data, done, i, next);
      result[dest], result[dest + 1], result[dest + 2], result[dest + 3] := s0, s1, s2, s3;
      assert result[..dest + 4] == done + [s0, s1, s2, s3];
      i, dest := next, dest + 4;
    }
    assert result[..] == result[..dest];
    return result[..];
  }

  // ---------- Decoding ----------

  datatype ParseFlag = ParseStrict | ParseWhite | ParseAny
  datatype PadFlag = PadYes | PadAny | PadNo
  datatype TermFlag = TermBuffer | TermChar | TermAny
  datatype Flags = Flags(parse: ParseFlag, pad: PadFlag, term: TermFlag)

  const STRICT := Flags(ParseStrict, PadYes, TermBuffer)

  /** Where the scan for a quantum stands: characters passed, values collected, and
      the pads seen since the last value. */
  datatype Scan = Scan(n: nat, q: Bytes, padLen: nat, padStart: nat)

  const START := Scan(0, [], 0, 0)

  /** What one character does to the scan; `None` ends it in front of the character. */
  function TakeChar(parse: ParseFlag, illegalPads: bool, c: bv8, s: Scan): Option<Scan> {
    var v := DecodeTable(c);
    var skip := if parse == ParseAny then Some(s.(n := s.n + 1)) else None;
    if v == IL || (illegalPads && v == PD) then skip
    else if v == SP then if parse == ParseStrict then None else Some(s.(n := s.n + 1))
    else if v == PD then
      if |s.q| < 2 then skip
      else if |s.q| + s.padLen >= 4 then skip
      else Some(s.(n := s.n + 1, padLen := s.padLen + 1, padStart := if s.padLen == 0 then s.n else s.padStart))
    else if s.padLen > 0 && parse != ParseAny then None
    else Some(s.(n := s.n + 1, q := s.q + [v], padLen := 0))
  }

  function ScanFrom(parse: ParseFlag, illegalPads: bool, data: Bytes, s: Scan): (r: Scan)
    requires s.n <= |data|
    ensures s.n <= r.n <= |data|
    decreases |data| - s.n
  {
    if |s.q| < 4 && s.n < |data| then
      var next := TakeChar(parse, illegalPads, data[s.n], s);
      if next.None? then s else ScanFrom(parse, illegalPads, data, next.value)
    else s
  }

  /** Up to four values, how much input they account for, and whether pads fill the
      quantum up; pads that do not are given back. */
  datatype Quantum = Quantum(q: Bytes, n: nat, padded: bool)

  function ToQuantum(s: Scan): Quantum {
    if |s.q| + s.padLen == 4 then Quantum(s.q, s.n, true)
    else Quantum(s.q, if s.padLen > 0 then s.padStart else s.n, false)
  }

  function NextQuantum(parse: ParseFlag, illegalPads: bool, data: Bytes): Quantum {
    ToQuantum(ScanFrom(parse, illegalPads, data, START))
  }

  function At(q: Bytes, i: nat): bv8 {
    if i < |q| then q[i] else 0
  }

  function Byte0(q0: bv8, q1: bv8): bv8 {
    (q0 << 2) | ((q1 >> 4) & 0x3)
  }

  function Byte1(q1: bv8, q2: bv8): bv8 {
    ((q1 << 4) & 0xf0) | ((q2 >> 2) & 0xf)
  }

  function Byte2(q2: bv8, q3: bv8): bv8 {
    ((q2 << 6) & 0xc0) | q3
  }

  /** The whole bytes in a quantum. */
  function WholeBytes(q: Bytes): Bytes {
    (if |q| >= 2 then [Byte0(At(q, 0), At(q, 1))] else [])
    + (if |q| >= 3 then [Byte1(At(q, 1), At(q, 2))] else [])
    + (if |q| >= 4 then [Byte2(At(q, 2), At(q, 3))] else [])
  }

  /** The bits of a quantum that do not make up a byte. */
  function SpareBits(q: Bytes): bv8 {
    if |q| >= 4 then 0
    else if |q| == 3 then Byte2(At(q, 2), At(q, 3))
    else if |q| == 2 then Byte1(At(q, 1), At(q, 2))
    else Byte0(At(q, 0), At(q, 1))
  }

  datatype Decoded = Decoded(bytes: Bytes, success: bool, used: nat)

  /** Whether an incomplete quantum may end the input. */
  predicate GoodEnd(f: Flags, g: Quantum) {
    (f.term == TermAny || SpareBits(g.q) == 0) && (f.pad == PadYes ==> g.padded)
  }

  function DecodeAll(f: Flags, data: Bytes): (d: Decoded)
    ensures d.used <= |data|
    decreases |data|
  {
    if data == [] then Decoded([], true, 0)
    else
      QuantumBounds(f.parse, f.pad == PadNo, data);
      var g := NextQuantum(f.parse, f.pad == PadNo, data);
      if |g.q| < 4 then Decoded(WholeBytes(g.q), GoodEnd(f, g), g.n)
      else
        var rest := DecodeAll(f, data[g.n..]);
        Decoded(WholeBytes(g.q) + rest.bytes, rest.success, g.n + rest.used)
  }

  function Decode(f: Flags, data: Bytes): Decoded {
    var d := DecodeAll(f, data);
    d.(success := d.success && (f.term == TermBuffer ==> d.used == |data|))
  }

  /** What holds all through a scan. */
  predicate ScanOk(data: Bytes, s: Scan) {
    && s.n <= |data| && |s.q| <= s.n && |s.q| <= 4 && |s.q| + s.padLen <= 4
    && (s.padLen > 0 ==> 2 <= |s.q| <= s.padStart < s.n)
  }

  lemma {:induction false} ScanKeeps(parse: ParseFlag, ip: bool, data: Bytes, s: Scan)
    requires ScanOk(data, s)
    ensures ScanOk(data, ScanFrom(parse, ip, data, s))
    decreases |data| - s.n
  {
    if |s.q| < 4 && s.n < |data| {
      var next := TakeChar(parse, ip, data[s.n], s);
      if next.Some? {
        ScanKeeps(parse, ip, data, next.value);
      }
    }
  }

  /** A quantum stays within the input, and a full one uses at least four characters:
      giving pads back never holds the decoder up. */
  lemma QuantumBounds(parse: ParseFlag, ip: bool, data: Bytes)
    ensures var g := NextQuantum(parse, ip, data);
      |g.q| <= g.n <= |data| && |g.q| <= 4 && (g.padded ==> |g.q| >= 2)
  {
    ScanKeeps(parse, ip, data, START);
  }

  /** Collects the next quantum, from `start` on. */
  method GetNextQuantum(parse: ParseFlag, illegalPads: bool, data: Bytes, start: nat, qbuf: array<bv8>)
    returns (byteLen: nat, dpos: nat, padded: bool)
    requires start <= |data| && qbuf.Length == 4
    modifies qbuf
    ensures byteLen <= 4 && start <= dpos
    ensures Quantum(qbuf[..byteLen], dpos - start, padded) == NextQuantum(parse, illegalPads, data[start..])
    ensures forall i :: byteLen <= i < 4 ==> qbuf[i] == 0
  {
    hide DecodeTable;
    byteLen, dpos := 0, start;
    var padLen, padStart := 0, 0;
    ghost var input, s := data[start..], START;
    while byteLen < 4 && dpos < |data|
      invariant byteLen <= 4 && start <= dpos <= |data|
      invariant s == Scan(dpos - start, qbuf[..byteLen], padLen, s.padStart) && ScanOk(input, s)
      invariant padLen > 0 ==> padStart == start + s.padStart
      invariant ScanFrom(parse, illegalPads, input, s) == ScanFrom(parse, illegalPads, input, START)
      decreases |data| - dpos
    {
      assert input[s.n] == data[dpos];
      ghost var next := TakeChar(parse, illegalPads, input[s.n], s);
      ghost var before := qbuf[..byteLen];
      qbuf[byteLen] := DecodeTable(data[dpos]);
      assert qbuf[..byteLen] == before;
      if qbuf[byteLen] == IL || (illegalPads && qbuf[byteLen] == PD) {
        if parse != ParseAny {
          break;
        }
      } else if qbuf[byteLen] == SP {
        if parse == ParseStrict {
          break;
        }
      } else if qbuf[byteLen] == PD {
        if byteLen < 2 {
          if parse != ParseAny {
            break;
          }
        } else if byteLen + padLen >= 4 {
          if parse != ParseAny {
            break;
          }
        } else {
          padLen := padLen + 1;
          if padLen == 1 {
            padStart := dpos;
          }
        }
      } else {
        if padLen > 0 {
          if parse != ParseAny {
            break;
          }
          padLen := 0;
        }
        byteLen := byteLen + 1;
      }
      dpos := dpos + 1;
      s := next.value;
    }
    ZeroFrom(qbuf, byteLen);
    hide TakeChar;
    padded := byteLen + padLen == 4;
    if !padded && padLen > 0 {
      dpos := padStart;
    }
  }

  method ZeroFrom(qbuf: array<bv8>, from: nat)
    requires from <= qbuf.Length == 4
    modifies qbuf
    ensures qbuf[..from] == old(qbuf[..from]) && forall i :: from <= i < 4 ==> qbuf[i] == 0
  {
    for i := from to 4
      invariant qbuf[..from] == old(qbuf[..from]) && forall k :: from <= k < i ==> qbuf[k] == 0
    {
      qbuf[i] := 0;
    }
  }

  /** Appends the whole bytes of a quantum, and returns the bits left over. */
  method PushBytes(qbuf: array<bv8>, qlen: nat, before: Bytes) returns (result: Bytes, c: bv8)
    requires qbuf.Length == 4 && qlen <= 4 && forall i :: qlen <= i < 4 ==> qbuf[i] == 0
    ensures result == before + WholeBytes(qbuf[..qlen]) && c == SpareBits(qbuf[..qlen])
  {
    ghost var q := qbuf[..qlen];
    assert At(q, 0) == qbuf[0] && At(q, 1) == qbuf[1] && At(q, 2) == qbuf[2] && At(q, 3) == qbuf[3];
    result := before;
    c := (qbuf[0] << 2) | ((qbuf[1] >> 4) & 0x3);
    if qlen >= 2 {
      result := result + [c];
      c := ((qbuf[1] << 4) & 0xf0) | ((qbuf[2] >> 2) & 0xf);
      if qlen >= 3 {
        result := result + [c];
        c := ((qbuf[2] << 6) & 0xc0) | qbuf[3];
        if qlen >= 4 {
          result := result + [c];
          c := 0;
        }
      }
    }
  }

  method DecodeFromArray(data: Bytes, flags: Flags) returns (success: bool, result: Bytes, dataUsed: nat)
    ensures Decoded(result, success, dataUsed) == Decode(flags, data)
  {
    hide WholeBytes, SpareBits, NextQuantum;
    var qbuf := new bv8[4](_ => 0);
    var dpos, padded := 0, false;
    success, result := true, [];
    ghost var whole := DecodeAll(flags, data);
    assert data[0..] == data;
    while dpos < |data|
      invariant dpos <= |data| && qbuf.Length == 4 && success
      invariant result + DecodeAll(flags, data[dpos..]).bytes == whole.bytes
      invariant DecodeAll(flags, data[dpos..]).success == whole.success
      invariant dpos + DecodeAll(flags, data[dpos..]).used == whole.used
      decreases |data| - dpos
    {
      ghost var rest, g := data[dpos..], NextQuantum(flags.parse, flags.pad == PadNo, data[dpos..]);
      QuantumBounds(flags.parse, flags.pad == PadNo, rest);
      ghost var before := result;
      var qlen;
      qlen, dpos, padded := GetNextQuantum(flags.parse, flags.pad == PadNo, data, dpos, qbuf);
      var c;
      result, c := PushBytes(qbuf, qlen, result);
      assert data[dpos..] == rest[g.n..];
      ghost var later := DecodeAll(flags, data[dpos..]).bytes;
      assert before + (WholeBytes(g.q) + later) == before + WholeBytes(g.q) + later;
      if qlen < 4 {
        if flags.term != TermAny && c != 0 {
          success := false;
        }
        if flags.pad == PadYes && !padded {
          success := false;
        }
        break;
      }
    }
    if flags.term == TermBuffer && dpos != |data| {
      success := false;
    }
    dataUsed := dpos;
  }

  // ---------- Strict decoding is the inverse of encoding ----------

  lemma UnpackPacked(b0: bv8, b1: bv8, b2: bv8)
    ensures Byte0(First(b0), Second(b0, b1)) == b0
    ensures Byte1(Second(b0, b1), Third(b1, b2)) == b1
    ensures Byte2(Third(b1, b2), Fourth(b2)) == b2
    ensures Byte1(Second(b0, 0), 0) == 0 && Byte2(Third(b1, 0), 0) == 0
  {
  }

  lemma PackUnpacked(q0: bv8, q1: bv8, q2: bv8, q3: bv8)
    requires q0 < 64 && q1 < 64 && q2 < 64 && q3 < 64
    ensures First(Byte0(q0, q1)) == q0
    ensures Second(Byte0(q0, q1), Byte1(q1, q2)) == q1 && Third(Byte1(q1, q2), Byte2(q2, q3)) == q2
    ensures Fourth(Byte2(q2, q3)) == q3
    ensures Byte1(q1, 0) == 0 ==> Second(Byte0(q0, q1), 0) == q1
    ensures Byte2(q2, 0) == 0 ==> Third(Byte1(q1, q2), 0) == q2
  {
  }

  lemma ScanValue(parse: ParseFlag, ip: bool, data: Bytes, s: Scan)
    requires s.n < |data| && |s.q| < 4 && s.padLen == 0 && InAlphabet(data[s.n])
    ensures ScanFrom(parse, ip, data, s)
         == ScanFrom(parse, ip, data, s.(n := s.n + 1, q := s.q + [DecodeTable(data[s.n])]))
  {
  }

  /** Values at the front of the input are collected one after the other. */
  lemma {:induction false} ScanValues(parse: ParseFlag, ip: bool, data: Bytes, k: nat)
    requires k <= 4 && k <= |data| && forall i :: 0 <= i < k ==> InAlphabet(data[i])
    ensures ScanFrom(parse, ip, data, START)
         == ScanFrom(parse, ip, data, Scan(k, seq(k, i requires 0 <= i < k => DecodeTable(data[i])), 0, 0))
  {
    hide DecodeTable;
    var f := (j: nat) requires j <= k => seq(j, i requires 0 <= i < j => DecodeTable(data[i]));
    var j := 0;
    assert f(0) == [];
    while j < k
      invariant j <= k
      invariant ScanFrom(parse, ip, data, START) == ScanFrom(parse, ip, data, Scan(j, f(j), 0, 0))
    {
      ScanValue(parse, ip, data, Scan(j, f(j), 0, 0));
      assert f(j + 1) == f(j) + [DecodeTable(data[j])];
      j := j + 1;
    }
  }

  lemma {:induction false} WholeQuantum(parse: ParseFlag, ip: bool, data: Bytes)
    requires |data| >= 4 && forall i :: 0 <= i < 4 ==> InAlphabet(data[i])
    ensures NextQuantum(parse, ip, data) == Quantum(
      [DecodeTable(data[0]), DecodeTable(data[1]), DecodeTable(data[2]), DecodeTable(data[3])], 4, true)
  {
    hide DecodeTable;
    ScanValues(parse, ip, data, 4);
    assert seq(4, i requires 0 <= i < 4 => DecodeTable(data[i]))
      == [DecodeTable(data[0]), DecodeTable(data[1]), DecodeTable(data[2]), DecodeTable(data[3])];
  }

  /** Two or three values that the right number of pads fills up. */
  lemma {:induction false} PaddedQuantum(data: Bytes, k: nat)
    requires |data| == 4 && 2 <= k <= 3
    requires forall i :: 0 <= i < k ==> InAlphabet(data[i])
    requires forall i :: k <= i < 4 ==> data[i] == PAD_CHAR
    ensures NextQuantum(ParseStrict, false, data)
         == Quantum(seq(k, i requires 0 <= i < k => DecodeTable(data[i])), 4, true)
  {
    ScanValues(ParseStrict, false, data, k);
    hide InAlphabet;
    var q := seq(k, i requires 0 <= i < k => DecodeTable(data[i]));
    var s := Scan(k, q, 0, 0);
    var s1 := Scan(k + 1, q, 1, k);
    assert TakeChar(ParseStrict, false, data[k], s) == Some(s1);
    assert ScanFrom(ParseStrict, false, data, s) == ScanFrom(ParseStrict, false, data, s1);
    if k == 2 {
      assert TakeChar(ParseStrict, false, data[3], s1) == Some(Scan(4, q, 2, k));
      assert ScanFrom(ParseStrict, false, data, s1) == Scan(4, q, 2, k);
    } else {
      assert ScanFrom(ParseStrict, false, data, s1) == s1;
    }
  }

  /** Decoding what was encoded gives it back, to the last character. */
  lemma {:induction false} StrictDecodesEncoding(data: Bytes)
    ensures DecodeAll(STRICT, Encode(data)) == Decoded(data, true, |Encode(data)|)
    decreases |data|
  {
    var text := Encode(data);
    if data != [] {
      EncodeLength(data);
      var k := if |data| < 3 then |data| else 3;
      EncodeStep(data, k);
      var g := data[..k];
      UnpackPacked(g[0], if k > 1 then g[1] else 0, if k > 2 then g[2] else 0);
      if k == 3 {
        StrictDecodesEncoding(data[3..]);
        WholeGroup(data, text);
      } else {
        PartGroup(data, text);
      }
    }
  }

  lemma {:induction false} WholeGroup(data: Bytes, text: Bytes)
    requires |data| >= 3 && text == EncodeGroup(data[..3]) + Encode(data[3..])
    requires DecodeAll(STRICT, Encode(data[3..])) == Decoded(data[3..], true, |Encode(data[3..])|)
    ensures DecodeAll(STRICT, text) == Decoded(data, true, |text|)
  {
    WholeQuantum(ParseStrict, false, text);
    var g := NextQuantum(ParseStrict, false, text);
    UnpackPacked(data[0], data[1], data[2]);
    assert WholeBytes(g.q) == data[..3];
    assert text[4..] == Encode(data[3..]);
    assert data[..3] + data[3..] == data;
  }

  lemma {:induction false} PartGroup(data: Bytes, text: Bytes)
    requires 1 <= |data| < 3 && text == EncodeGroup(data)
    ensures DecodeAll(STRICT, text) == Decoded(data, true, |text|)
  {
    var k := |data| + 1;
    PaddedQuantum(text, k);
    var g := NextQuantum(ParseStrict, false, text);
    UnpackPacked(data[0], if |data| > 1 then data[1] else 0, 0);
    assert Third(0, 0) == 0;
    assert WholeBytes(g.q) == data && SpareBits(g.q) == 0;
  }

  /** In strict mode the characters of a quantum are its values, then its pads. */
  predicate Literal(data: Bytes, s: Scan) {
    && ScanOk(data, s) && s.n == |s.q| + s.padLen
    && (forall i :: 0 <= i < |s.q| ==> InAlphabet(data[i]) && DecodeTable(data[i]) == s.q[i])
    && (forall i :: |s.q| <= i < s.n ==> data[i] == PAD_CHAR)
  }

  lemma {:induction false} StrictScan(ip: bool, data: Bytes, s: Scan)
    requires Literal(data, s)
    ensures Literal(data, ScanFrom(ParseStrict, ip, data, s))
    decreases |data| - s.n
  {
    if |s.q| < 4 && s.n < |data| {
      var next := TakeChar(ParseStrict, ip, data[s.n], s);
      if next.Some? {
        StrictScan(ip, data, next.value);
      }
    }
  }

  /** Whatever strict decoding accepts is an encoding: of the very bytes it returns. */
  lemma {:induction false} StrictAcceptsOnlyEncodings(text: Bytes)
    requires DecodeAll(STRICT, text).success && DecodeAll(STRICT, text).used == |text|
    ensures text == Encode(DecodeAll(STRICT, text).bytes)
    decreases |text|
  {
    if text != [] {
      var s, g := ScanFrom(ParseStrict, false, text, START), NextQuantum(ParseStrict, false, text);
      StrictScan(false, text, START);
      QuantumBounds(ParseStrict, false, text);
      if |g.q| == 4 {
        var rest := DecodeAll(STRICT, text[4..]);
        StrictAcceptsOnlyEncodings(text[4..]);
        GroupRestored(text, g.q);
        var bytes := WholeBytes(g.q) + rest.bytes;
        EncodeStep(bytes, 3);
        assert bytes[..3] == WholeBytes(g.q) && bytes[3..] == rest.bytes;
        assert text == text[..4] + text[4..];
      } else {
        assert g.padded && |text| == 4;
        GroupRestored(text, g.q);
        assert text == text[..4];
      }
    }
  }

  lemma GroupRestored(text: Bytes, q: Bytes)
    requires 2 <= |q| <= 4 <= |text| && SpareBits(q) == 0
    requires forall i :: 0 <= i < |q| ==> InAlphabet(text[i]) && DecodeTable(text[i]) == q[i]
    requires forall i :: |q| <= i < 4 ==> text[i] == PAD_CHAR
    ensures |WholeBytes(q)| == |q| - 1 && EncodeGroup(WholeBytes(q)) == text[..4]
  {
    EncodeOfDecode(text[0]);
    EncodeOfDecode(text[1]);
    if |q| > 2 {
      EncodeOfDecode(text[2]);
    }
    if |q| > 3 {
      EncodeOfDecode(text[3]);
    }
    PackUnpacked(q[0], q[1], if |q| > 2 then q[2] else 0, if |q| > 3 then q[3] else 0);
  }

  /** Strict decoding is a bijection between the encodings and the byte strings. */
  lemma {:induction false} StrictIsInverse(text: Bytes, data: Bytes)
    ensures Decode(STRICT, text) == Decoded(data, true, |text|) <==> text == Encode(data)
    ensures Decode(STRICT, text).success ==> text == Encode(Decode(STRICT, text).bytes)
  {
    StrictDecodesEncoding(data);
    if Decode(STRICT, text).success {
      StrictAcceptsOnlyEncodings(text);
    }
  }

  // ---------- What the lenient modes ignore ----------

  /** The characters that are kept, in order. */
  function Select(s: Bytes, keep: bv8 -> bool): (t: Bytes)
    ensures |t| <= |s|
    decreases |s|
  {
    if s == [] then [] else (if keep(s[0]) then [s[0]] else []) + Select(s[1..], keep)
  }

  lemma {:induction false} SelectConcat(a: Bytes, b: Bytes, keep: bv8 -> bool)
    ensures Select(a + b, keep) == Select(a, keep) + Select(b, keep)
    decreases |a|
  {
    if a == [] {
      assert a + b == b;
    } else {
      assert (a + b)[1..] == a[1..] + b;
      SelectConcat(a[1..], b, keep);
      var first := if keep(a[0]) then [a[0]] else [];
      assert first + (Select(a[1..], keep) + Select(b, keep)) == first + Select(a[1..], keep) + Select(b, keep);
    }
  }

  lemma SelectSplit(s: Bytes, n: nat, keep: bv8 -> bool)
    requires n <= |s|
    ensures Select(s, keep) == Select(s[..n], keep) + Select(s[n..], keep)
  {
    assert s == s[..n] + s[n..];
    SelectConcat(s[..n], s[n..], keep);
  }

  /** A kept character is found behind those kept before it. */
  lemma SelectAt(s: Bytes, n: nat, keep: bv8 -> bool)
    requires n < |s|
    ensures var k := |Select(s[..n], keep)|;
      if keep(s[n]) then
        k < |Select(s, keep)| && Select(s, keep)[k] == s[n] && |Select(s[..n + 1], keep)| == k + 1
      else |Select(s[..n + 1], keep)| == k
  {
    SelectSplit(s, n, keep);
    SelectSplit(s[..n + 1], n, keep);
    assert s[..n + 1][..n] == s[..n] && s[..n + 1][n..] == [s[n]];
    assert Select([s[n]], keep) == if keep(s[n]) then [s[n]] else [];
    assert Select(s[n..], keep) == (if keep(s[n]) then [s[n]] else []) + Select(s[n..][1..], keep);
  }

  lemma {:induction false} SelectOnlyKept(s: Bytes, keep: bv8 -> bool)
    ensures forall i :: 0 <= i < |Select(s, keep)| ==> keep(Select(s, keep)[i])
    decreases |s|
  {
    if s != [] {
      SelectOnlyKept(s[1..], keep);
    }
  }

  predicate NotSpace(c: bv8) {
    DecodeTable(c) != SP
  }

  function Strip(s: Bytes): Bytes {
    Select(s, NotSpace)
  }

  /** The scan of the stripped input shadows the scan of the input. */
  predicate Shadows(data: Bytes, s: Scan, t: Scan) {
    && ScanOk(data, s) && ScanOk(Strip(data), t)
    && t.q == s.q && t.padLen == s.padLen && t.n == |Strip(data[..s.n])|
    && (s.padLen > 0 ==> t.padStart == |Strip(data[..s.padStart])| && data[s.padStart] == PAD_CHAR)
    && (|s.q| == 4 ==> 0 < s.n && InAlphabet(data[s.n - 1]))
  }

  lemma WhiteStep(ip: bool, data: Bytes, s: Scan, t: Scan)
    requires Shadows(data, s, t) && |s.q| < 4 && s.n < |data|
    ensures var c := data[s.n];
      var next := TakeChar(ParseWhite, ip, c, s);
      if NotSpace(c) then
        && t.n < |Strip(data)| && Strip(data)[t.n] == c
        && var tnext := TakeChar(ParseWhite, ip, c, t);
        && (next.None? <==> tnext.None?)
        && (next.Some? ==> next.value.n == s.n + 1 && Shadows(data, next.value, tnext.value))
      else next.Some? && next.value.n == s.n + 1 && Shadows(data, next.value, t)
  {
    hide Select;
    SelectAt(data, s.n, NotSpace);
  }

  lemma {:induction false} WhiteScan(ip: bool, data: Bytes, s: Scan, t: Scan)
    requires Shadows(data, s, t)
    ensures var s1 := ScanFrom(ParseWhite, ip, data, s);
      && Shadows(data, s1, ScanFrom(ParseWhite, ip, Strip(data), t))
      && (|s1.q| == 4 || s1.n == |data| || NotSpace(data[s1.n]))
    decreases |data| - s.n
  {
    assert data[..|data|] == data;
    if |s.q| < 4 && s.n < |data| {
      var c := data[s.n];
      WhiteStep(ip, data, s, t);
      hide TakeChar, NotSpace, Strip;
      var next := TakeChar(ParseWhite, ip, c, s);
      if !NotSpace(c) {
        WhiteScan(ip, data, next.value, t);
      } else if next.Some? {
        WhiteScan(ip, data, next.value, TakeChar(ParseWhite, ip, c, t).value);
      }
    }
  }

  /** Whole quanta of the alphabet and nothing else, but for whitespace at the end. */
  predicate BlankTail(data: Bytes) {
    && data != [] && !NotSpace(data[|data| - 1])
    && |Strip(data)| % 4 == 0
    && forall i :: 0 <= i < |Strip(data)| ==> InAlphabet(Strip(data)[i])
  }

  /** The next quantum with whitespace is the next quantum without. */
  lemma {:induction false} WhiteQuantum(ip: bool, data: Bytes)
    ensures var g, h := NextQuantum(ParseWhite, ip, data), NextQuantum(ParseWhite, ip, Strip(data));
      && h.q == g.q && h.padded == g.padded && g.n <= |data|
      && h.n == |Strip(data[..g.n])|
      && (g.n == |data| || |g.q| == 4 || |Strip(data[..g.n])| < |Strip(data)|)
      && (|g.q| == 4 ==> 0 < g.n && InAlphabet(data[g.n - 1]))
  {
    assert data[..0] == [];
    WhiteScan(ip, data, START, START);
    QuantumBounds(ParseWhite, ip, data);
    var g := NextQuantum(ParseWhite, ip, data);
    if g.n < |data| {
      hide Select, TakeChar;
      SelectAt(data, g.n, NotSpace);
    }
  }

  /** Without whitespace the mode is the strict one. */
  lemma {:induction false} WhiteIsStrict(ip: bool, data: Bytes, s: Scan)
    requires s.n <= |data| && forall i :: 0 <= i < |data| ==> NotSpace(data[i])
    ensures ScanFrom(ParseWhite, ip, data, s) == ScanFrom(ParseStrict, ip, data, s)
    decreases |data| - s.n
  {
    if |s.q| < 4 && s.n < |data| {
      var next := TakeChar(ParseWhite, ip, data[s.n], s);
      if next.Some? {
        WhiteIsStrict(ip, data, next.value);
      }
    }
  }

  /** A full quantum is the first four characters of the stripped input. */
  lemma {:induction false} WhiteFull(ip: bool, data: Bytes)
    requires |NextQuantum(ParseWhite, ip, Strip(data)).q| == 4
    ensures var t := Strip(data);
      NextQuantum(ParseWhite, ip, t).n == 4 <= |t| && forall i :: 0 <= i < 4 ==> InAlphabet(t[i])
  {
    var t := Strip(data);
    SelectOnlyKept(data, NotSpace);
    WhiteIsStrict(ip, t, START);
    StrictScan(ip, t, START);
  }

  lemma {:induction false} BlankTailSplit(f: Flags, data: Bytes)
    requires data != [] && Strip(data) != []
    ensures var g := NextQuantum(ParseWhite, f.pad == PadNo, data);
      && (|g.q| < 4 ==> !BlankTail(data))
      && (|g.q| == 4 ==> g.n <= |data| && (BlankTail(data) <==> BlankTail(data[g.n..])))
      && (|g.q| == 4 ==> |Strip(data)| >= 4 && Strip(data[g.n..]) == Strip(data)[4..] && |Strip(data[..g.n])| == 4)
  {
    var ip, t := f.pad == PadNo, Strip(data);
    WhiteQuantum(ip, data);
    var g := NextQuantum(ParseWhite, ip, data);
    if |g.q| == 4 {
      WhiteFull(ip, data);
      SelectSplit(data, g.n, NotSpace);
      var u := data[g.n..];
      assert Strip(u) == t[4..];
      assert u != [] ==> u[|u| - 1] == data[|data| - 1];
      assert forall i :: 0 <= i < |Strip(u)| ==> Strip(u)[i] == t[i + 4];
      if BlankTail(u) {
        assert forall i :: 4 <= i < |t| ==> t[i] == Strip(u)[i - 4];
      }
    } else if BlankTail(data) {
      WholeQuantum(ParseWhite, ip, t);
      assert false;
    }
  }

  /** How the decoder's answers with and without the whitespace are related. */
  predicate WhiteAgrees(f: Flags, data: Bytes) {
    var d, e := DecodeAll(f, data), DecodeAll(f, Strip(data));
    && e.bytes == d.bytes && e.used == |Strip(data[..d.used])|
    && (d.used == |data| <==> e.used == |Strip(data)|)
    && (BlankTail(data) ==> e.success && e.used == |Strip(data)|)
    && (d.success <==> e.success && !(f.pad == PadYes && BlankTail(data)))
  }

  /** In whitespace mode the bytes, and how much is used, are those of the input
      without its whitespace; so is the verdict, except that required padding is
      missed when whitespace follows whole quanta. */
  lemma {:induction false} WhiteDecodeAll(f: Flags, data: Bytes)
    requires f.parse == ParseWhite
    ensures WhiteAgrees(f, data)
    decreases |data|
  {
    var ip := f.pad == PadNo;
    if data == [] {
    } else if Strip(data) == [] {
      assert data[..|data|] == data;
      AllSpaces(f, data);
    } else {
      QuantumBounds(ParseWhite, ip, data);
      var g := NextQuantum(ParseWhite, ip, data);
      if |g.q| == 4 {
        WhiteDecodeAll(f, data[g.n..]);
        WhiteFullStep(f, data);
      } else {
        WhiteLastStep(f, data);
      }
    }
  }

  lemma {:induction false} WhiteFullStep(f: Flags, data: Bytes)
    requires f.parse == ParseWhite && data != [] && Strip(data) != []
    requires var g := NextQuantum(ParseWhite, f.pad == PadNo, data);
      |g.q| == 4 && g.n <= |data| && WhiteAgrees(f, data[g.n..])
    ensures WhiteAgrees(f, data)
  {
    hide BlankTail, Select, NextQuantum, WholeBytes, SpareBits, GoodEnd;
    var ip := f.pad == PadNo;
    WhiteQuantum(ip, data);
    BlankTailSplit(f, data);
    WhiteFull(ip, data);
    var g := NextQuantum(ParseWhite, ip, data);
    var rest := data[g.n..];
    var used := DecodeAll(f, rest).used;
    assert data[..g.n + used] == data[..g.n] + rest[..used];
    SelectConcat(data[..g.n], rest[..used], NotSpace);
  }

  lemma {:induction false} WhiteLastStep(f: Flags, data: Bytes)
    requires f.parse == ParseWhite && data != [] && Strip(data) != []
    requires |NextQuantum(ParseWhite, f.pad == PadNo, data).q| < 4
    ensures WhiteAgrees(f, data)
  {
    WhiteQuantum(f.pad == PadNo, data);
    BlankTailSplit(f, data);
    assert data[..|data|] == data;
    hide BlankTail, Select, NextQuantum, WholeBytes, SpareBits;
  }

  lemma {:induction false} AllSpaces(f: Flags, data: Bytes)
    requires f.parse == ParseWhite && data != [] && Strip(data) == []
    ensures DecodeAll(f, data) == Decoded([], f.pad != PadYes, |data|) && BlankTail(data)
  {
    var ip := f.pad == PadNo;
    WhiteQuantum(ip, data);
    SelectAt(data, |data| - 1, NotSpace);
    assert NextQuantum(ParseWhite, ip, []) == Quantum([], 0, false);
  }

  /** Whitespace mode ignores whitespace: always in what it decodes, and in its
      verdict exactly when padding is not required or no blank tail is present. */
  lemma {:induction false} WhiteIgnoresSpaces(f: Flags, data: Bytes)
    requires f.parse == ParseWhite
    ensures Decode(f, data).bytes == Decode(f, Strip(data)).bytes
    ensures Decode(f, Strip(data)).used == |Strip(data[..Decode(f, data).used])|
    ensures Decode(f, data).success == Decode(f, Strip(data)).success
      <==> !(f.pad == PadYes && BlankTail(data))
  {
    WhiteDecodeAll(f, data);
  }

  function OnlyAlphabet(s: Bytes): Bytes {
    Select(s, InAlphabet)
  }

  /** How many pads there are behind the last character of the alphabet. */
  function TailPads(s: Bytes): nat {
    if s == [] || InAlphabet(s[|s| - 1]) then 0
    else TailPads(s[..|s| - 1]) + if DecodeTable(s[|s| - 1]) == PD then 1 else 0
  }

  predicate HasTail(s: Bytes) {
    s != [] && !InAlphabet(s[|s| - 1])
  }

  lemma TailPadsSnoc(s: Bytes, c: bv8)
    ensures TailPads(s + [c])
      == if InAlphabet(c) then 0 else TailPads(s) + if DecodeTable(c) == PD then 1 else 0
  {
    assert (s + [c])[..|s|] == s;
  }

  /** What stands in front of a character of the alphabet does not matter. */
  lemma {:induction false} TailPadsBehind(s: Bytes, t: Bytes)
    requires s != [] && InAlphabet(s[|s| - 1])
    ensures TailPads(s + t) == TailPads(t)
    decreases |t|
  {
    if t == [] {
      assert s + t == s;
    } else {
      var front, c := t[..|t| - 1], t[|t| - 1];
      TailPadsBehind(s, front);
      TailPadsSnoc(s + front, c);
      assert s + t == (s + front) + [c];
    }
  }

  /** The pads that a scan counts. */
  function PadsSeen(ip: bool, values: nat, pads: nat): nat {
    if ip || values < 2 then 0 else if values + pads <= 4 then pads else if values <= 4 then 4 - values else 0
  }

  /** The scan of the alphabet characters alone follows the scan of the input. */
  predicate Follows(ip: bool, data: Bytes, s: Scan, t: Scan) {
    && ScanOk(data, s) && ScanOk(OnlyAlphabet(data), t)
    && t.q == s.q && t.padLen == 0 && t.n == |OnlyAlphabet(data[..s.n])|
    && s.padLen == PadsSeen(ip, |s.q|, TailPads(data[..s.n]))
    && (|s.q| == 4 ==> s.n > 0 && InAlphabet(data[s.n - 1]))
    && s.q == Values(OnlyAlphabet(data)[..t.n])
  }

  function Values(s: Bytes): (v: Bytes)
    ensures |v| == |s|
  {
    seq(|s|, i requires 0 <= i < |s| => DecodeTable(s[i]))
  }

  lemma ValuesSnoc(s: Bytes, n: nat)
    requires n < |s|
    ensures Values(s[..n + 1]) == Values(s[..n]) + [DecodeTable(s[n])]
  {
  }

  lemma AnyStep(ip: bool, data: Bytes, s: Scan, t: Scan)
    requires Follows(ip, data, s, t) && |s.q| < 4 && s.n < |data|
    ensures var c := data[s.n];
      var next := TakeChar(ParseAny, ip, c, s);
      && next.Some? && next.value.n == s.n + 1
      && if InAlphabet(c) then
           && t.n < |OnlyAlphabet(data)| && OnlyAlphabet(data)[t.n] == c
           && var tnext := TakeChar(ParseAny, ip, c, t);
              tnext.Some? && Follows(ip, data, next.value, tnext.value)
         else Follows(ip, data, next.value, t)
  {
    hide Select;
    SelectAt(data, s.n, InAlphabet);
    TailPadsSnoc(data[..s.n], data[s.n]);
    assert data[..s.n + 1] == data[..s.n] + [data[s.n]];
    if InAlphabet(data[s.n]) {
      ValuesSnoc(OnlyAlphabet(data), t.n);
    }
    hide TailPads, Values;
  }

  lemma {:induction false} AnyScan(ip: bool, data: Bytes, s: Scan, t: Scan)
    requires Follows(ip, data, s, t)
    ensures var s1 := ScanFrom(ParseAny, ip, data, s);
      && Follows(ip, data, s1, ScanFrom(ParseAny, ip, OnlyAlphabet(data), t))
      && (|s1.q| == 4 || s1.n == |data|)
    decreases |data| - s.n
  {
    assert data[..|data|] == data;
    if |s.q| < 4 && s.n < |data| {
      var c := data[s.n];
      AnyStep(ip, data, s, t);
      hide TakeChar, InAlphabet, OnlyAlphabet;
      var next := TakeChar(ParseAny, ip, c, s).value;
      AnyScan(ip, data, next, if InAlphabet(c) then TakeChar(ParseAny, ip, c, t).value else t);
    }
  }

  lemma {:induction false} AnyQuantum(ip: bool, data: Bytes)
    ensures var g, h := NextQuantum(ParseAny, ip, data), NextQuantum(ParseAny, ip, OnlyAlphabet(data));
      && h.q == g.q && g.n <= |data|
      && (|g.q| == 4 ==>
            && h.n == |OnlyAlphabet(data[..g.n])| == 4
            && 0 < g.n && InAlphabet(data[g.n - 1]))
      && (|g.q| < 4 ==>
            && h.n == |OnlyAlphabet(data)| && g.q == Values(OnlyAlphabet(data))
            && (g.padded <==> !ip && |g.q| >= 2 && |g.q| + TailPads(data) >= 4)
            && (g.n == |data| <==> ip || |g.q| < 2 || TailPads(data) == 0 || |g.q| + TailPads(data) >= 4))
  {
    var text := OnlyAlphabet(data);
    assert data[..0] == [] && data[..|data|] == data && text[..0] == [] && text[..|text|] == text;
    assert TailPads([]) == 0 && OnlyAlphabet([]) == [] && Values([]) == [];
    hide TailPads, Select, OnlyAlphabet, Values, ScanFrom, InAlphabet;
    AnyScan(ip, data, START, START);
    QuantumBounds(ParseAny, ip, data);
  }

  /** How the decoder's answers on the input and on its alphabet characters are
      related when everything else is to be ignored. */
  predicate AnyAgrees(f: Flags, data: Bytes) {
    var d, e := DecodeAll(f, data), DecodeAll(f, OnlyAlphabet(data));
    && e.bytes == d.bytes && e.used == |OnlyAlphabet(data)|
    && (f.pad == PadNo ==> d.used == |data|)
    && (f.pad != PadYes ==> d.success == e.success)
  }

  lemma {:induction false} AnyDecodeAll(f: Flags, data: Bytes)
    requires f.parse == ParseAny
    ensures AnyAgrees(f, data)
    decreases |data|
  {
    var ip := f.pad == PadNo;
    if data != [] {
      AnyQuantum(ip, data);
      QuantumBounds(ParseAny, ip, data);
      var g := NextQuantum(ParseAny, ip, data);
      if |g.q| == 4 {
        AnyDecodeAll(f, data[g.n..]);
        AnyFullStep(f, data);
      } else {
        AnyLastStep(f, data);
      }
    }
  }

  lemma {:induction false} AnyFullStep(f: Flags, data: Bytes)
    requires f.parse == ParseAny && data != []
    requires var g := NextQuantum(ParseAny, f.pad == PadNo, data);
      |g.q| == 4 && g.n <= |data| && AnyAgrees(f, data[g.n..])
    ensures AnyAgrees(f, data)
  {
    hide Select, NextQuantum, WholeBytes, SpareBits, GoodEnd;
    var ip := f.pad == PadNo;
    AnyQuantum(ip, data);
    QuantumBounds(ParseAny, ip, OnlyAlphabet(data));
    var g := NextQuantum(ParseAny, ip, data);
    SelectSplit(data, g.n, InAlphabet);
    var h := NextQuantum(ParseAny, ip, OnlyAlphabet(data));
    assert OnlyAlphabet(data)[h.n..] == OnlyAlphabet(data[g.n..]);
  }

  lemma {:induction false} AnyLastStep(f: Flags, data: Bytes)
    requires f.parse == ParseAny && data != []
    requires |NextQuantum(ParseAny, f.pad == PadNo, data).q| < 4
    ensures AnyAgrees(f, data)
  {
    AnyQuantum(f.pad == PadNo, data);
    assert NextQuantum(ParseAny, f.pad == PadNo, []) == Quantum([], 0, false);
    hide Select, NextQuantum;
  }

  /** No bits are left over behind the last whole byte, or they do not matter. */
  predicate NoSpareBits(f: Flags, text: Bytes) {
    f.term == TermAny || SpareBits(Values(text[|text| - |text| % 4..])) == 0
  }

  /** The verdict of the loop, and whether it came to the end, from what the eye sees: how
      many characters of the alphabet there are, what bits are left over, and how many
      pads, or whether anything at all, come behind the last of them. */
  predicate AnyVerdict(f: Flags, data: Bytes) {
    var text := OnlyAlphabet(data);
    if |text| % 4 == 0 then f.pad == PadYes ==> !HasTail(data)
    else NoSpareBits(f, text) && (f.pad == PadYes ==> |text| % 4 >= 2 && |text| % 4 + TailPads(data) >= 4)
  }

  predicate AnyComesToEnd(f: Flags, data: Bytes) {
    var r := |OnlyAlphabet(data)| % 4;
    f.pad == PadNo || r < 2 || TailPads(data) == 0 || r + TailPads(data) >= 4
  }

  lemma {:induction false} AnyVerdicts(f: Flags, data: Bytes)
    requires f.parse == ParseAny
    ensures DecodeAll(f, data).success <==> AnyVerdict(f, data)
    ensures DecodeAll(f, data).used == |data| <==> AnyComesToEnd(f, data)
    decreases |data|
  {
    if data != [] {
      var ip := f.pad == PadNo;
      AnyQuantum(ip, data);
      QuantumBounds(ParseAny, ip, data);
      var g := NextQuantum(ParseAny, ip, data);
      if |g.q| == 4 {
        AnyVerdicts(f, data[g.n..]);
        AnyVerdictStep(f, data, g.n);
        hide AnyVerdict, AnyComesToEnd, NextQuantum;
      } else {
        AnyVerdictLast(f, data);
      }
    }
  }

  lemma AnyVerdictLast(f: Flags, data: Bytes)
    requires f.parse == ParseAny && data != [] && |NextQuantum(ParseAny, f.pad == PadNo, data).q| < 4
    ensures DecodeAll(f, data).success <==> AnyVerdict(f, data)
    ensures DecodeAll(f, data).used == |data| <==> AnyComesToEnd(f, data)
  {
    hide TailPads, Select, NextQuantum, SpareBits, InAlphabet, Values, OnlyAlphabet;
    var text := OnlyAlphabet(data);
    AnyQuantum(f.pad == PadNo, data);
    ShortText(text);
    EmptyValues();
    if text == [] {
      NothingKept(data);
    }
  }

  lemma ShortText(text: Bytes)
    ensures |Values(text)| == |text|
    ensures |text| < 4 ==> |text| % 4 == |text| && text[|text| - |text| % 4..] == text
  {
  }

  lemma EmptyValues()
    ensures SpareBits(Values([])) == 0
  {
  }

  lemma NothingKept(data: Bytes)
    requires data != [] && OnlyAlphabet(data) == []
    ensures HasTail(data)
  {
    SelectAt(data, |data| - 1, InAlphabet);
  }

  /** A full quantum in front changes nothing of that. */
  lemma AnyVerdictStep(f: Flags, data: Bytes, n: nat)
    requires 0 < n <= |data| && InAlphabet(data[n - 1]) && |OnlyAlphabet(data[..n])| == 4
    ensures AnyVerdict(f, data) == AnyVerdict(f, data[n..])
    ensures AnyComesToEnd(f, data) == AnyComesToEnd(f, data[n..])
  {
    hide Select, TailPads, SpareBits, InAlphabet, Values;
    var rest := data[n..];
    SelectSplit(data, n, InAlphabet);
    TailPadsBehind(data[..n], rest);
    assert data == data[..n] + rest;
    LastOfBoth(OnlyAlphabet(data[..n]), OnlyAlphabet(rest));
  }

  lemma LastOfBoth(front: Bytes, more: Bytes)
    requires |front| == 4
    ensures var text := front + more;
      |text| % 4 == |more| % 4 && text[|text| - |text| % 4..] == more[|more| - |more| % 4..]
  {
    var text, k := front + more, |more| - |more| % 4;
    assert |text| - |text| % 4 == 4 + k;
    assert text[4 + k..] == more[k..];
  }

  lemma {:induction false} SelectAll(s: Bytes, keep: bv8 -> bool)
    requires forall i :: 0 <= i < |s| ==> keep(s[i])
    ensures Select(s, keep) == s
    decreases |s|
  {
    if s != [] {
      SelectAll(s[1..], keep);
    }
  }

  /** When the characters that are to be ignored make a difference after all: where padding
      is required, anything behind whole quanta, or the pads that an incomplete one needs;
      and where the whole buffer is to be used, a pad that is missing its second. */
  predicate TheRestMatters(f: Flags, data: Bytes) {
    var text := OnlyAlphabet(data);
    var r := |text| % 4;
    match f.pad
    case PadNo => false
    case PadYes =>
      if r == 0 then HasTail(data) else r >= 2 && r + TailPads(data) >= 4 && NoSpareBits(f, text)
    case PadAny => f.term == TermBuffer && r == 2 && TailPads(data) == 1 && NoSpareBits(f, text)
  }

  /** The lenient mode ignores everything outside the alphabet: always in what it decodes,
      and in its verdict exactly when that does not matter. */
  lemma {:induction false} AnyIgnoresTheRest(f: Flags, data: Bytes)
    requires f.parse == ParseAny
    ensures Decode(f, data).bytes == Decode(f, OnlyAlphabet(data)).bytes
    ensures Decode(f, data).success == Decode(f, OnlyAlphabet(data)).success <==> !TheRestMatters(f, data)
  {
    var text := OnlyAlphabet(data);
    AnyDecodeAll(f, data);
    AnyVerdicts(f, data);
    AnyVerdicts(f, text);
    SelectOnlyKept(data, InAlphabet);
    SelectAll(text, InAlphabet);
    assert TailPads(text) == 0 && !HasTail(text);
    hide Select, TailPads, DecodeAll, HasTail, NoSpareBits;
  }
}
