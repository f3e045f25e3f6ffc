/** The C library text routines that the HTTP engine relies on: `isspace`, the
    trimming of a line, `strchrn`, `_strnicmp`, `strtoul(..., 16)` and the
    `%.*x` conversion.  All text is ASCII in the "C" locale. */
module HttpText {
  import opened Sizes

  const SIZE_UNKNOWN: nat := SIZE_LIMIT - 1

  type Size = n: nat | n < SIZE_LIMIT

  const CRLF := "\r\n"

  /** The buffer of `HttpBase`, which it sends from and receives into. */
  const BUFFER_SIZE: nat := 32 * 1024

  predicate IsSpace(c: char) {
    c == ' ' || '\t' <= c <= '\r'
  }

  /** Drops the whitespace at the end of a line. */
  function TrimRight(s: string): string {
    if |s| > 0 && IsSpace(s[|s| - 1]) then TrimRight(s[..|s| - 1]) else s
  }

  /** The index of the first `c` in `s`, or `|s|`; a NUL ends the search. */
  function IndexOf(s: string, c: char): (i: nat)
    ensures i <= |s|
    ensures i < |s| ==> s[i] == c
    ensures c != '\0' ==> forall k :: 0 <= k < i < |s| ==> s[k] != c && s[k] != '\0'
  {
    if s == [] || s[0] == c then 0
    else if s[0] == '\0' then |s|
    else 1 + IndexOf(s[1..], c)
  }

  function SkipSpaces(s: string, i: nat): (j: nat)
    requires i <= |s|
    ensures i <= j <= |s|
    decreases |s| - i
  {
    if i < |s| && IsSpace(s[i]) then SkipSpaces(s, i + 1) else i
  }

  function ToLower(c: char): char {
    if 'A' <= c <= 'Z' then (c as int + 32) as char else c
  }

  predicate EqualsIgnoreCase(a: string, b: string) {
    |a| == |b| && forall i :: 0 <= i < |a| ==> ToLower(a[i]) == ToLower(b[i])
  }

  predicate IsHexDigit(c: char) {
    '0' <= c <= '9' || 'a' <= c <= 'f' || 'A' <= c <= 'F'
  }

  function HexValue(c: char): (v: nat)
    requires IsHexDigit(c)
    ensures v < 16
  {
    if '0' <= c <= '9' then c as int - '0' as int
    else if 'a' <= c <= 'f' then c as int - 'a' as int + 10
    else c as int - 'A' as int + 10
  }

  /** The end of the run of hex digits that starts at `i`. */
  function HexRunEnd(s: string, i: nat): (j: nat)
    requires i <= |s|
    ensures i <= j <= |s|
    decreases |s| - i
  {
    if i < |s| && IsHexDigit(s[i]) then HexRunEnd(s, i + 1) else i
  }

  /** The number read by appending the digits at `i..j` to `acc`. */
  function HexNumber(s: string, i: nat, j: nat, acc: nat): nat
    requires i <= |s| && i <= j <= HexRunEnd(s, i)
    decreases j - i
  {
    if i == j then acc else HexNumber(s, i + 1, j, 16 * acc + HexValue(s[i]))
  }

  /** `strtoul(s, &end, 16)`: leading whitespace, an optional sign, an optional
      `0x`, then digits.  With no digit nothing is consumed; a number too large
      saturates; a minus sign negates modulo the width of the type. */
  function StrToUL(s: string): (r: (Size, nat))
    ensures r.1 <= |s|
  {
    var afterSpace := SkipSpaces(s, 0);
    var negative := afterSpace < |s| && s[afterSpace] == '-';
    var afterSign := if afterSpace < |s| && s[afterSpace] in "+-" then afterSpace + 1 else afterSpace;
    var start :=
      if afterSign + 2 < |s| && s[afterSign] == '0' && s[afterSign + 1] in "xX" && IsHexDigit(s[afterSign + 2])
      then afterSign + 2 else afterSign;
    var end := HexRunEnd(s, start);
    if end == start then (0, 0)
    else
      var n := HexNumber(s, start, end, 0);
      (if n >= SIZE_LIMIT then SIZE_LIMIT - 1 else if negative then (SIZE_LIMIT - n) % SIZE_LIMIT else n, end)
  }

  function HexChar(v: nat): (c: char)
    requires v < 16
    ensures IsHexDigit(c) && HexValue(c) == v && !IsSpace(c) && c !in "+-xX"
  {
    if v < 10 then ('0' as int + v) as char else ('a' as int + v - 10) as char
  }

  /** The low `width` hex digits of `n`, as `%.*x` prints a number that fits. */
  function ToHex(n: nat, width: nat): (s: string)
    ensures |s| == width
    ensures forall i :: 0 <= i < width ==> IsHexDigit(s[i]) && !IsSpace(s[i]) && s[i] !in "+-xX"
  {
    if width == 0 then "" else ToHex(n / 16, width - 1) + [HexChar(n % 16)]
  }

  function Pow16(k: nat): (p: nat)
    ensures p > 0
  {
    if k == 0 then 1 else 16 * Pow16(k - 1)
  }

  lemma {:induction false} HexRunIsAll(s: string, i: nat)
    requires i <= |s| && forall k :: i <= k < |s| ==> IsHexDigit(s[k])
    ensures HexRunEnd(s, i) == |s|
    decreases |s| - i
  {
    if i < |s| {
      HexRunIsAll(s, i + 1);
    }
  }

  /** Appending one digit multiplies by sixteen and adds its value. */
  lemma {:induction false} HexNumberSnoc(s: string, c: char, i: nat, acc: nat)
    requires i <= |s| && IsHexDigit(c) && forall k :: 0 <= k < |s| ==> IsHexDigit(s[k])
    ensures HexRunEnd(s, i) == |s| && HexRunEnd(s + [c], i) == |s| + 1
    ensures HexNumber(s + [c], i, |s| + 1, acc) == 16 * HexNumber(s, i, |s|, acc) + HexValue(c)
    decreases |s| - i
  {
    HexRunIsAll(s, i);
    HexRunIsAll(s + [c], i);
    if i < |s| {
      HexNumberSnoc(s, c, i + 1, 16 * acc + HexValue(s[i]));
    } else {
      HexRunIsAll(s + [c], i + 1);
    }
  }

  lemma {:induction false} ToHexValue(n: nat, width: nat)
    requires n < Pow16(width)
    ensures HexRunEnd(ToHex(n, width), 0) == width
    ensures HexNumber(ToHex(n, width), 0, width, 0) == n
  {
    HexRunIsAll(ToHex(n, width), 0);
    if width > 0 {
      assert n / 16 < Pow16(width - 1);
      ToHexValue(n / 16, width - 1);
      HexNumberSnoc(ToHex(n / 16, width - 1), HexChar(n % 16), 0, 0);
    }
  }

  /** The value of a number in hexadecimal, its last digit being the units. */
  function HexValueOf(s: string): nat
    requires forall k :: 0 <= k < |s| ==> IsHexDigit(s[k])
  {
    if s == "" then 0 else 16 * HexValueOf(s[..|s| - 1]) + HexValue(s[|s| - 1])
  }

  lemma {:induction false} HexNumberIsValue(s: string)
    requires forall k :: 0 <= k < |s| ==> IsHexDigit(s[k])
    ensures HexRunEnd(s, 0) == |s| && HexNumber(s, 0, |s|, 0) == HexValueOf(s)
  {
    HexRunIsAll(s, 0);
    if s != "" {
      var front := s[..|s| - 1];
      HexNumberIsValue(front);
      HexNumberSnoc(front, s[|s| - 1], 0, 0);
      assert front + [s[|s| - 1]] == s;
    }
  }

  lemma EitherCase(c: char)
    requires IsHexDigit(c)
    ensures HexChar(HexValue(c)) == ToLower(c)
  {
  }

  /** `strtoul` reads digits in either case, with leading zeros or without, to the end, and
      stops at the largest number there is. */
  lemma HexDigitsRead(s: string)
    requires s != "" && forall k :: 0 <= k < |s| ==> IsHexDigit(s[k])
    ensures StrToUL(s) == (if HexValueOf(s) < SIZE_LIMIT then HexValueOf(s) else SIZE_UNKNOWN, |s|)
  {
    HexNumberIsValue(s);
    assert SkipSpaces(s, 0) == 0 && s[0] !in "+-";
    assert |s| > 1 ==> s[1] !in "xX";
  }

  /** What `%.*x` prints, `strtoul` reads back, consuming all of it. */
  lemma {:induction false} HexRoundTrip(n: nat, width: nat)
    requires 0 < width && n < Pow16(width) && n < SIZE_LIMIT
    ensures StrToUL(ToHex(n, width)) == (n, width)
  {
    ToHexValue(n, width);
    var s := ToHex(n, width);
    assert SkipSpaces(s, 0) == 0;
  }

  /** Whitespace appended to a line that does not end in whitespace is dropped. */
  lemma {:induction false} TrimRightOf(s: string, spaces: string)
    requires s == [] || !IsSpace(s[|s| - 1])
    requires forall i :: 0 <= i < |spaces| ==> IsSpace(spaces[i])
    ensures TrimRight(s + spaces) == s
  {
    if spaces == [] {
      assert s + spaces == s;
    } else {
      var t := s + spaces;
      assert t[..|t| - 1] == s + spaces[..|spaces| - 1];
      TrimRightOf(s, spaces[..|spaces| - 1]);
    }
  }
}
