/** Messages as other programs send them: header lines with any space in them, chunks of any
    form, trailers, and bodies that are ended by closing the connection. */
module HttpBodies {
  import opened HttpText
  import opened HttpParsing
  import opened HttpSending
  import opened HttpRoundTrip
  import R = HttpReceiving

  // ---------- Header lines ----------

  lemma {:induction false} SpacesSkipped(front: string, spaces: string, rest: string)
    requires forall k :: 0 <= k < |spaces| ==> IsSpace(spaces[k])
    requires rest == "" || !IsSpace(rest[0])
    ensures SkipSpaces(front + spaces + rest, |front|) == |front| + |spaces|
    decreases |spaces|
  {
    if spaces == "" {
      assert front + spaces + rest == front + rest;
    } else {
      SpacesSkipped(front + [spaces[0]], spaces[1..], rest);
      assert front + [spaces[0]] + spaces[1..] + rest == front + spaces + rest;
    }
  }

  /** A header is split at its first colon, with any amount of space behind it. */
  lemma HeaderLineSplits(cb: Callbacks, p: Parser, name: string, spaces: string, value: string)
    requires ':' !in name && '\0' !in name && forall k :: 0 <= k < |spaces| ==> IsSpace(spaces[k])
    requires value == "" || !IsSpace(value[0])
    ensures HeaderLine(cb, p, name + ":" + spaces + value) == TakeHeader(cb, p, name, value)
  {
    var line := name + ":" + spaces + value;
    IndexOfFirst(name, spaces + value, ':');
    assert line == name + [':'] + (spaces + value);
    SpacesSkipped(name + ":", spaces, value);
    assert line[..|name|] == name && line[|name + ":"| + |spaces|..] == value;
    hide IndexOf, SkipSpaces, TakeHeader;
  }

  /** And a line without a colon is not a header. */
  lemma NoColonIsRefused(cb: Callbacks, p: Parser, line: string)
    requires p.state == StHeaders && '\n' !in line && ':' !in line && TrimRight(line) != ""
    ensures Feed(cb, Running(p, ""), line + "\n") == Finished(p, Protocol, "")
  {
    FeedLine(cb, p, line);
    TrimmedIsPart(line);
    hide Feed;
  }

  lemma {:induction false} TrimmedIsPart(s: string)
    ensures forall c :: c in TrimRight(s) ==> c in s
  {
    if s != "" && IsSpace(s[|s| - 1]) {
      TrimmedIsPart(s[..|s| - 1]);
    }
  }

  // ---------- Chunks ----------

  predicate Digits(s: string) {
    s != "" && forall k :: 0 <= k < |s| ==> IsHexDigit(s[k])
  }

  /** A line that gives a size: digits in either case, and any space behind them. */
  predicate GivesSize(line: string, n: nat) {
    '\n' !in line && Digits(TrimRight(line)) && HexValueOf(TrimRight(line)) == n
  }

  predicate Blank(line: string) {
    '\n' !in line && TrimRight(line) == ""
  }

  lemma SizeTaken(cb: Callbacks, p: Parser, line: string, n: nat)
    requires p.state == StChunkSize && GivesSize(line, n) && n < SIZE_UNKNOWN
    ensures Feed(cb, Running(p, ""), line + "\n")
         == Running(p.(state := if n == 0 then StTrailers else StData, dataSize := n), "")
  {
    FeedLine(cb, p, line);
    HexDigitsRead(TrimRight(line));
    hide Feed, StrToUL, HexValueOf, TrimRight;
  }

  /** A chunk of any form delivers its data, and the next chunk is waited for. */
  lemma {:induction false} AnyChunk(cb: Callbacks, p: Parser, line: string, data: string, end: string)
    requires p.state == StChunkSize && p.chunked && 0 < |data| < SIZE_UNKNOWN
    requires GivesSize(line, |data|) && Blank(end)
    ensures Feed(cb, Running(p, ""), line + "\n" + data + (end + "\n"))
         == Running(p.(dataSize := 0, body := p.body + data), "")
  {
    var p1 := p.(state := StData, dataSize := |data|);
    var p2 := p.(state := StChunkTerm, dataSize := 0, body := p.body + data);
    SizeTaken(cb, p, line, |data|);
    FeedData(cb, p1, data);
    FeedLine(cb, p2, end);
    FeedConcat(cb, Running(p, ""), line + "\n", data);
    FeedConcat(cb, Running(p, ""), line + "\n" + data, end + "\n");
    hide Feed, TrimRight, GivesSize;
  }

  /** What is not a size ends the message with an error: anything but a number that takes
      up the whole line. */
  lemma BrokenSize(cb: Callbacks, p: Parser, line: string)
    requires p.state == StChunkSize && '\n' !in line
    ensures var r := Feed(cb, Running(p, ""), line + "\n");
      var text := TrimRight(line);
      && (r.Finished? <==> text == "" || StrToUL(text).1 != |text|)
      && (r.Finished? ==> r.error == Protocol && r.rest == "" && r.parser.body == p.body)
  {
    FeedLine(cb, p, line);
    hide Feed, StrToUL, TrimRight;
  }

  /** So does anything but a blank line behind the data of a chunk. */
  lemma BrokenEnd(cb: Callbacks, p: Parser, line: string)
    requires p.state == StChunkTerm && p.chunked && '\n' !in line
    ensures Feed(cb, Running(p, ""), line + "\n")
         == if Blank(line) then Running(p.(state := StChunkSize), "") else Finished(p, Protocol, "")
  {
    FeedLine(cb, p, line);
    hide Feed, TrimRight;
  }

  function LinesOf(lines: seq<string>): string {
    if lines == [] then "" else lines[0] + "\n" + LinesOf(lines[1..])
  }

  /** Trailers are skipped, whatever they say, until a blank line ends the message. */
  lemma {:induction false} TrailersSkipped(cb: Callbacks, p: Parser, trailers: seq<string>, end: string, extra: string)
    requires p.state == StTrailers && Blank(end)
    requires forall i :: 0 <= i < |trailers| ==> '\n' !in trailers[i] && TrimRight(trailers[i]) != ""
    ensures Feed(cb, Running(p, ""), LinesOf(trailers) + (end + "\n") + extra) == Finished(p, NoError, extra)
    decreases |trailers|
  {
    hide Feed, TrimRight;
    if trailers == [] {
      FeedLine(cb, p, end);
      FeedConcat(cb, Running(p, ""), end + "\n", extra);
      FeedFinished(cb, Finished(p, NoError, ""), extra);
      assert LinesOf(trailers) + (end + "\n") + extra == end + "\n" + extra && "" + extra == extra;
    } else {
      var rest := LinesOf(trailers[1..]) + (end + "\n") + extra;
      FeedLine(cb, p, trailers[0]);
      FeedConcat(cb, Running(p, ""), trailers[0] + "\n", rest);
      TrailersSkipped(cb, p, trailers[1..], end, extra);
      assert LinesOf(trailers) + (end + "\n") + extra == trailers[0] + "\n" + rest;
    }
  }

  // ---------- Bodies that the end of the stream ends ----------

  /** Behind a head without a length or chunks, everything is the body. */
  lemma OpenBody(cb: Callbacks, m: Message, text: string)
    requires Sendable(cb, m, |m.headers|) && !LastSaysChunked(Fitting(m.headers))
    requires Reply(cb, m).error == NoError && Reply(cb, m).dataSize == SIZE_UNKNOWN
    ensures Feed(cb, Settle(FRESH), Head(m, |m.headers|) + text) == Running(AfterHead(cb, m).parser.(body := text), "")
  {
    hide Feed, Sendable, Reply, AfterHead, Head;
    var q := AfterHead(cb, m).parser;
    AfterHeadState(cb, m);
    FeedHead(cb, m);
    HeadAccepted(cb, m);
    FeedConcat(cb, Settle(FRESH), Head(m, |m.headers|), text);
    if text == "" {
      NothingFed(cb, Settle(q));
    } else {
      FeedData(cb, q, text);
    }
    assert "" + text == text;
  }

  /** The receiver of such a message, when the stream comes to a clean end: no error, and
      the body is exactly what came behind the head. */
  lemma EndedByClosing(r: R.HttpReceiver, m: Message, text: string, error: HttpError)
    requires Sendable(r.cb, m, |m.headers|) && !LastSaysChunked(Fitting(m.headers))
    requires Reply(r.cb, m).error == NoError && Reply(r.cb, m).dataSize == SIZE_UNKNOWN
    requires r.received == Head(m, |m.headers|) + text && r.Drained()
    requires r.EndMeans(error) && r.answers[|r.answers| - 1] == R.ReadEos
    ensures error == NoError && r.body == text
    ensures r.events == [Leader(m.leader)] + HeaderEvents(Fitting(m.headers))
      + [HeadersComplete(false, Announced(r.cb, Fitting(m.headers)))]
  {
    OpenBody(r.cb, m, text);
    AfterHeadState(r.cb, m);
    hide Feed, Sendable, Reply, AfterHead, Head, Settle;
  }

  /** But with text in its buffer that it has not looked at, as after an interruption, the
      same end is no error either, and that text is lost. */
  lemma LostAtClosingIff(r: R.HttpReceiver, m: Message, text: string)
    requires Sendable(r.cb, m, |m.headers|) && !LastSaysChunked(Fitting(m.headers))
    requires Reply(r.cb, m).error == NoError && Reply(r.cb, m).dataSize == SIZE_UNKNOWN
    requires r.received == Head(m, |m.headers|) + text && r.Valid()
    requires r.state == StData && r.dataSize == SIZE_UNKNOWN
    ensures r.body + r.buffer[..r.len] == text
    ensures r.body == text <==> r.len == 0
  {
    OpenBody(r.cb, m, text);
    var held := r.buffer[..r.len];
    if held == "" {
      NothingFed(r.cb, Settle(r.Abs()));
      assert r.body + held == r.body;
    } else {
      FeedData(r.cb, r.Abs(), held);
    }
    hide Feed, Sendable, Reply, AfterHead, Head;
  }
}
