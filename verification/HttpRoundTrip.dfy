/** What the sender puts on the wire, the parser takes apart again. */
module HttpRoundTrip {
  import opened Sizes
  import opened HttpText
  import opened HttpParsing
  import opened Options
  import opened HttpSending
  import R = HttpReceiving

  lemma {:induction false} FeedSizeLine(cb: Callbacks, p: Parser, size: nat, width: nat)
    requires p.state == StChunkSize && 0 < width && size < Pow16(width) && size < SIZE_LIMIT
    ensures Feed(cb, Running(p, ""), ToHex(size, width) + CRLF)
         == Running(p.(state := if size == 0 then StTrailers else StData, dataSize := size), "")
  {
    var hex := ToHex(size, width);
    HexRoundTrip(size, width);
    TrimRightOf(hex, "\r");
    FeedLine(cb, p, hex + "\r");
    assert hex + CRLF == hex + "\r" + "\n";
  }

  /** The line end after a chunk's data, or the blank line after the last chunk. */
  lemma {:induction false} FeedBlankLine(cb: Callbacks, p: Parser)
    requires p.state.TakesLines()
    ensures Feed(cb, Running(p, ""), CRLF) == AfterLine(Line(cb, p, ""))
  {
    TrimRightOf("", "\r");
    assert "" + "\r" == "\r" && CRLF == "\r" + "\n";
    FeedLine(cb, p, "\r");
  }

  /** A chunk-size line, the data, and the line end after it leave the parser ready
      for the next chunk, with the data delivered. */
  lemma {:induction false} FeedChunk(cb: Callbacks, p: Parser, data: string)
    requires p.state == StChunkSize && p.chunked && 0 < |data| <= BUFFER_SIZE
    ensures Feed(cb, Running(p, ""), Chunk(data)) == Running(Delivered(p, [data]), "")
  {
    hide Feed, ToHex, Pow16, Line, Concat;
    var sizeLine := ToHex(|data|, CHUNK_DIGITS) + CRLF;
    var p1 := p.(state := StData, dataSize := |data|);
    var p2 := p.(state := StChunkTerm, dataSize := 0, body := p.body + data);
    SizeInRange(|data|);
    FeedSizeLine(cb, p, |data|, CHUNK_DIGITS);
    FeedData(cb, p1, data);
    FeedBlankLine(cb, p2);
    ChunkEnds(cb, p2);
    FeedConcat(cb, Running(p, ""), sizeLine, data);
    FeedConcat(cb, Running(p, ""), sizeLine + data, CRLF);
    OnePiece(data);
  }

  lemma ChunkEnds(cb: Callbacks, p: Parser)
    requires p.state == StChunkTerm && p.chunked
    ensures AfterLine(Line(cb, p, "")) == Running(p.(state := StChunkSize), "")
  {
  }

  lemma OnePiece(data: string)
    ensures Concat([data]) == data
  {
  }

  lemma SizeInRange(n: nat)
    requires n <= BUFFER_SIZE
    ensures n < Pow16(CHUNK_DIGITS)
  {
    assert Pow16(4) == 65536;
    assert Pow16(8) == 16 * 16 * 16 * 16 * Pow16(4);
  }

  /** The parser once these pieces have been delivered as chunks. */
  function Delivered(p: Parser, parts: seq<string>): Parser {
    if parts == [] then p else p.(body := p.body + Concat(parts), dataSize := 0)
  }

  /** However the document was cut into chunks, its bytes arrive in order. */
  lemma {:induction false} FeedChunks(cb: Callbacks, p: Parser, parts: seq<string>)
    requires p.state == StChunkSize && p.chunked
    requires forall i :: 0 <= i < |parts| ==> 0 < |parts[i]| <= BUFFER_SIZE
    ensures Feed(cb, Running(p, ""), Body(true, parts)) == Running(Delivered(p, parts), "")
  {
    if parts != [] {
      var front, last := parts[..|parts| - 1], parts[|parts| - 1];
      FeedChunks(cb, p, front);
      var q := Delivered(p, front);
      FeedChunk(cb, q, last);
      FeedConcat(cb, Running(p, ""), Body(true, front), Chunk(last));
      assert Concat([last]) == last && Concat(parts) == Concat(front) + last;
      assert p.body + (Concat(front) + last) == p.body + Concat(front) + last;
      assert Delivered(q, [last]) == Delivered(p, parts);
    }
  }

  /** The last chunk ends the message. */
  lemma {:induction false} FeedLastChunk(cb: Callbacks, p: Parser)
    requires p.state == StChunkSize
    ensures Feed(cb, Running(p, ""), LAST_CHUNK) == Finished(p.(state := StTrailers, dataSize := 0), NoError, "")
  {
    assert Pow16(1) == 16 && ToHex(0, 1) == "0";
    assert LAST_CHUNK == "0" + CRLF + CRLF;
    hide Feed, ToHex, Pow16;
    FeedSizeLine(cb, p, 0, 1);
    FeedBlankLine(cb, p.(state := StTrailers, dataSize := 0));
    FeedConcat(cb, Running(p, ""), "0" + CRLF, CRLF);
  }

  /** A chunk-coded document, in whatever pieces it was read, is decoded exactly,
      and nothing after it is touched. */
  lemma {:induction false} ChunkedBodyRoundTrip(cb: Callbacks, p: Parser, parts: seq<string>, extra: string)
    requires p.state == StChunkSize && p.chunked
    requires forall i :: 0 <= i < |parts| ==> 0 < |parts[i]| <= BUFFER_SIZE
    ensures Feed(cb, Running(p, ""), Body(true, parts) + LAST_CHUNK + extra)
         == Finished(p.(state := StTrailers, dataSize := 0, body := p.body + Concat(parts)), NoError, extra)
  {
    FeedChunks(cb, p, parts);
    FeedLastChunk(cb, Delivered(p, parts));
    FeedConcat(cb, Running(p, ""), Body(true, parts), LAST_CHUNK);
    FeedConcat(cb, Running(p, ""), Body(true, parts) + LAST_CHUNK, extra);
    FeedFinished(cb, Feed(cb, Running(p, ""), Body(true, parts) + LAST_CHUNK), extra);
    assert "" + extra == extra && p.body + "" == p.body;
  }

  // ---------- Lines ----------

  /** Text that survives being sent as the end of a line. */
  predicate Plain(s: string) {
    '\n' !in s && (s == "" || !IsSpace(s[|s| - 1]))
  }

  /** Names and values that can be told apart again, and that keep to their line. */
  predicate WellFormedHeader(h: HeaderField) {
    && ':' !in h.name && '\n' !in h.name && '\0' !in h.name
    && Plain(h.value) && (h.value == "" || !IsSpace(h.value[0]))
  }

  lemma {:induction false} IndexOfFirst(s: string, rest: string, c: char)
    requires c !in s && '\0' !in s && c != '\0'
    ensures IndexOf(s + [c] + rest, c) == |s|
  {
    if s != "" {
      assert (s + [c] + rest)[1..] == s[1..] + [c] + rest;
      IndexOfFirst(s[1..], rest, c);
    }
  }

  /** A header line is split into the name and the value. */
  predicate SplitsInto(line: string, name: string, value: string) {
    && IndexOf(line, ':') == |name| < |line| && line[..|name|] == name
    && line[SkipSpaces(line, |name| + 1)..] == value
  }

  lemma EmptyHeaderLine(h: HeaderField)
    requires WellFormedHeader(h) && h.value == ""
    ensures SplitsInto(TrimRight(h.name + ": " + h.value + "\r"), h.name, h.value)
  {
    var line := h.name + ":";
    TrimRightOf(line, " \r");
    IndexOfFirst(h.name, "", ':');
    hide IndexOf, TrimRight, WellFormedHeader;
    assert line + " \r" == h.name + ": " + h.value + "\r";
    assert line == h.name + [':'] + "";
  }

  lemma HeaderLineSlices(name: string, value: string)
    ensures var line := name + ": " + value;
      && line == name + [':'] + (" " + value) && |line| == |name| + 2 + |value|
      && line[..|name|] == name && line[|name| + 1] == ' ' && line[|name| + 2..] == value
  {
  }

  lemma OneSpaceSkipped(line: string, i: nat)
    requires i + 1 < |line| && line[i] == ' ' && !IsSpace(line[i + 1])
    ensures SkipSpaces(line, i) == i + 1
  {
    assert SkipSpaces(line, i + 1) == i + 1;
  }

  lemma FullHeaderLine(h: HeaderField)
    requires WellFormedHeader(h) && h.value != ""
    ensures SplitsInto(TrimRight(h.name + ": " + h.value + "\r"), h.name, h.value)
  {
    var line := h.name + ": " + h.value;
    HeaderLineSlices(h.name, h.value);
    TrimRightOf(line, "\r");
    IndexOfFirst(h.name, " " + h.value, ':');
    assert line[|h.name| + 2] == h.value[0];
    OneSpaceSkipped(line, |h.name| + 1);
    hide IndexOf, TrimRight, SkipSpaces, WellFormedHeader;
  }

  /** A rendered header line is taken for the very header it was rendered from. */
  lemma {:induction false} HeaderLineRoundTrip(cb: Callbacks, p: Parser, h: HeaderField)
    requires WellFormedHeader(h)
    ensures h.Render() == h.name + ": " + h.value + "\r" + "\n"
    ensures HeaderLine(cb, p, TrimRight(h.name + ": " + h.value + "\r")) == TakeHeader(cb, p, h.name, h.value)
  {
    hide TakeHeader, TrimRight, IndexOf, SkipSpaces, WellFormedHeader;
    if h.value == "" {
      EmptyHeaderLine(h);
    } else {
      FullHeaderLine(h);
    }
    assert CRLF == "\r" + "\n";
    assert h.name + ": " + h.value + CRLF == h.name + ": " + h.value + "\r" + "\n";
  }

  lemma HeaderLineNotEmpty(h: HeaderField)
    requires WellFormedHeader(h)
    ensures TrimRight(h.name + ": " + h.value + "\r") != ""
  {
    if h.value == "" {
      TrimRightOf(h.name + ":", " \r");
      assert h.name + ":" + " \r" == h.name + ": " + h.value + "\r";
    } else {
      TrimRightOf(h.name + ": " + h.value, "\r");
    }
  }

  lemma {:induction false} FeedRendered(cb: Callbacks, p: Parser, h: HeaderField)
    requires p.state == StHeaders && WellFormedHeader(h)
    ensures Feed(cb, Running(p, ""), h.Render()) == AfterLine(TakeHeader(cb, p, h.name, h.value))
  {
    HeaderLineRoundTrip(cb, p, h);
    HeaderLineNotEmpty(h);
    hide Feed, TrimRight, HeaderLine, TakeHeader;
    FeedLine(cb, p, h.name + ": " + h.value + "\r");
  }

  // ---------- What the parser can pass on ----------

  predicate Passable(e: Event) {
    match e
    case Leader(line) => Plain(line)
    case Header(name, value) => WellFormedHeader(HeaderField(name, value))
    case HeadersComplete(_, _) => true
  }

  ghost predicate PassableFrom(events: seq<Event>, n: nat) {
    n <= |events| && forall i :: n <= i < |events| ==> Passable(events[i])
  }

  lemma {:induction false} TrimmedIsPlain(s: string)
    requires '\n' !in s
    ensures Plain(TrimRight(s))
  {
    if s != "" && IsSpace(s[|s| - 1]) {
      TrimmedIsPlain(s[..|s| - 1]);
    }
  }

  lemma {:induction false} SpacesEnd(s: string, i: nat)
    requires i <= |s|
    ensures SkipSpaces(s, i) == |s| || !IsSpace(s[SkipSpaces(s, i)])
    decreases |s| - i
  {
    if i < |s| && IsSpace(s[i]) {
      SpacesEnd(s, i + 1);
    }
  }

  lemma NotInFront(line: string, n: nat, c: char)
    requires n <= |line| && forall k :: 0 <= k < n ==> line[k] != c
    ensures c !in line[..n]
  {
  }

  lemma SplitIsPassable(line: string)
    requires Plain(line) && IndexOf(line, ':') < |line|
    ensures var colon := IndexOf(line, ':');
      WellFormedHeader(HeaderField(line[..colon], line[SkipSpaces(line, colon + 1)..]))
  {
    var colon := IndexOf(line, ':');
    SpacesEnd(line, colon + 1);
    RestIsPlain(line, SkipSpaces(line, colon + 1));
    NotInFront(line, colon, ':');
    NotInFront(line, colon, '\0');
    NotInFront(line, colon, '\n');
    hide IndexOf, SkipSpaces, IsSpace, Plain;
  }

  lemma RestIsPlain(line: string, from: nat)
    requires Plain(line) && from <= |line|
    ensures Plain(line[from..]) && (from < |line| ==> line[from..] != "" && line[from..][0] == line[from])
  {
    hide IsSpace;
    if from < |line| {
      assert line[from..][|line| - from - 1] == line[|line| - 1];
    }
  }

  lemma OneMorePassable(events: seq<Event>, e: Event, n: nat)
    requires PassableFrom(events, n) && Passable(e)
    ensures PassableFrom(events + [e], n)
  {
    hide Passable;
  }

  lemma EventsTaken(cb: Callbacks, p: Parser, name: string, value: string)
    ensures var r := TakeHeader(cb, p, name, value);
      r.parser.events == p.events || r.parser.events == p.events + [Header(name, value)]
  {
    hide EqualsIgnoreCase;
  }

  lemma HeaderIsPassable(cb: Callbacks, p: Parser, line: string, n: nat)
    requires PassableFrom(p.events, n) && Plain(line)
    ensures PassableFrom(HeaderLine(cb, p, line).parser.events, n)
  {
    hide IndexOf, SkipSpaces, WellFormedHeader, TakeHeader, Plain, PassableFrom;
    var colon := IndexOf(line, ':');
    if colon < |line| {
      var name, value := line[..colon], line[SkipSpaces(line, colon + 1)..];
      SplitIsPassable(line);
      OneMorePassable(p.events, Header(name, value), n);
      EventsTaken(cb, p, name, value);
    }
  }

  lemma LineIsPassable(cb: Callbacks, p: Parser, line: string, n: nat)
    requires p.state.TakesLines() && PassableFrom(p.events, n) && Plain(line)
    ensures PassableFrom(Line(cb, p, line).parser.events, n)
  {
    match p.state {
      case StLeader =>
        OneMorePassable(p.events, Leader(line), n);
      case StHeaders =>
        HeaderIsPassable(cb, p, line, n);
        OneMorePassable(p.events, HeadersComplete(p.chunked, p.dataSize), n);
      case _ =>
    }
    hide HeaderLine, StrToUL, Plain, PassableFrom;
  }

  /** Whatever stream it is fed, a parser passes on no leader but one that keeps to its
      line, and no header but a well-formed one. */
  lemma {:induction false} FeedIsPassable(cb: Callbacks, m: Machine, s: string, n: nat)
    requires PassableFrom(m.parser.events, n) && (m.Running? ==> '\n' !in m.pending)
    ensures PassableFrom(Feed(cb, m, s).parser.events, n)
    decreases |s|
  {
    if s != "" {
      if m.Running? && m.parser.state.TakesLines() && s[0] == '\n' {
        TrimmedIsPlain(m.pending);
        LineIsPassable(cb, m.parser, TrimRight(m.pending), n);
      }
      hide Line, TrimRight, Passable, Plain;
      FeedIsPassable(cb, Step(cb, m, s[0]), s[1..], n);
    }
  }

  /** A header that is sent is passed on as itself, and the parser goes on, if and only if
      it is well-formed and makes sense. */
  lemma {:induction false} HeaderSurvivesIff(cb: Callbacks, p: Parser, h: HeaderField)
    requires p.state == StHeaders
    ensures var r := Feed(cb, Running(p, ""), h.Render());
      r.Running? && r.parser.events == p.events + [Header(h.name, h.value)]
      <==> WellFormedHeader(h) && Acceptable(cb, h)
  {
    hide Feed, WellFormedHeader, TakeHeader, Acceptable;
    if WellFormedHeader(h) {
      FeedRendered(cb, p, h);
      if Acceptable(cb, h) {
        HeaderTaken(cb, p, h);
      } else {
        HeaderRefused(cb, p, h);
      }
    } else {
      FeedIsPassable(cb, Running(p, ""), h.Render(), |p.events|);
      assert (p.events + [Header(h.name, h.value)])[|p.events|] == Header(h.name, h.value);
    }
  }

  // ---------- The head of a message ----------

  /** A length that is a number, and a transfer coding that is a known one. */
  predicate Acceptable(cb: Callbacks, h: HeaderField) {
    && (EqualsIgnoreCase(h.name, "Content-Length") ==> cb.contentLength(h.value).Some?)
    && (NamesCoding(h) ==> EqualsIgnoreCase(h.value, "chunked") || EqualsIgnoreCase(h.value, "identity"))
  }

  predicate NamesCoding(h: HeaderField) {
    EqualsIgnoreCase(h.name, "Transfer-Encoding")
  }

  /** The headers that are sent: the sender drops those that do not fit its buffer. */
  function Fitting(headers: seq<HeaderField>): seq<HeaderField> {
    if headers == [] then []
    else
      var last := headers[|headers| - 1];
      Fitting(headers[..|headers| - 1]) + if last.Fits() then [last] else []
  }

  function HeaderEvents(headers: seq<HeaderField>): seq<Event> {
    seq(|headers|, i requires 0 <= i < |headers| => Header(headers[i].name, headers[i].value))
  }

  /** The leader is written by a bounded copy, and so is the blank line behind it. */
  predicate LeaderFits(m: Message) {
    |m.leader| + (if m.headers == [] then 4 else 2) < BUFFER_SIZE
  }

  /** The text of what is sent keeps to its lines. */
  predicate KeepsToLines(m: Message) {
    Plain(m.leader) && forall i :: 0 <= i < |m.headers| && m.headers[i].Fits() ==> WellFormedHeader(m.headers[i])
  }

  /** The parser at the other end can make sense of the leader and the first `k` headers. */
  predicate Sendable(cb: Callbacks, m: Message, k: nat)
    requires k <= |m.headers|
  {
    && KeepsToLines(m) && LeaderFits(m) && cb.leader(m.leader) == NoError
    && forall i :: 0 <= i < k && m.headers[i].Fits() ==> Acceptable(cb, m.headers[i])
  }

  /** How the parser takes it: the last transfer coding decides, in any case. */
  predicate LastSaysChunked(headers: seq<HeaderField>) {
    headers != []
    && (if NamesCoding(headers[|headers| - 1]) then EqualsIgnoreCase(headers[|headers| - 1].value, "chunked")
        else LastSaysChunked(headers[..|headers| - 1]))
  }

  predicate NamesLength(h: HeaderField) {
    EqualsIgnoreCase(h.name, "Content-Length")
  }

  /** The length that the last Content-Length announces, or none. */
  function Announced(cb: Callbacks, headers: seq<HeaderField>): Size {
    if headers == [] then SIZE_UNKNOWN
    else
      var last := headers[|headers| - 1];
      if NamesLength(last) && cb.contentLength(last.value).Some? then cb.contentLength(last.value).value
      else Announced(cb, headers[..|headers| - 1])
  }

  /** The parser after the leader and the first `k` headers. */
  function AfterHeaders(cb: Callbacks, m: Message, k: nat): Parser
    requires k <= |m.headers|
  {
    var sent := Fitting(m.headers[..k]);
    Parser(StHeaders, LastSaysChunked(sent), Announced(cb, sent), [Leader(m.leader)] + HeaderEvents(sent), "")
  }

  lemma CodingIsNotLength(name: string)
    ensures !(EqualsIgnoreCase(name, "Content-Length") && EqualsIgnoreCase(name, "Transfer-Encoding"))
  {
    assert |"Content-Length"| == 14 && |"Transfer-Encoding"| == 17;
  }

  lemma HeaderTaken(cb: Callbacks, q: Parser, h: HeaderField)
    requires Acceptable(cb, h)
    ensures var r := TakeHeader(cb, q, h.name, h.value);
      && r == LineResult(r.parser, Continue, NoError)
      && r.parser.state == q.state && r.parser.body == q.body
      && r.parser.events == q.events + [Header(h.name, h.value)]
      && r.parser.chunked == (if NamesCoding(h) then EqualsIgnoreCase(h.value, "chunked") else q.chunked)
      && r.parser.dataSize == if NamesLength(h) then cb.contentLength(h.value).value else q.dataSize
  {
    CodingIsNotLength(h.name);
    hide EqualsIgnoreCase;
  }

  lemma FittingSnoc(headers: seq<HeaderField>, k: nat)
    requires k < |headers|
    ensures Fitting(headers[..k + 1]) == Fitting(headers[..k]) + if headers[k].Fits() then [headers[k]] else []
  {
    assert headers[..k + 1][..k] == headers[..k];
    hide HeaderField.Fits;
  }

  lemma EventsSnoc(cb: Callbacks, headers: seq<HeaderField>, h: HeaderField, before: seq<Event>)
    requires NamesLength(h) ==> cb.contentLength(h.value).Some?
    ensures before + HeaderEvents(headers + [h]) == before + HeaderEvents(headers) + [Header(h.name, h.value)]
    ensures LastSaysChunked(headers + [h])
      == if NamesCoding(h) then EqualsIgnoreCase(h.value, "chunked") else LastSaysChunked(headers)
    ensures Announced(cb, headers + [h])
      == if NamesLength(h) then cb.contentLength(h.value).value else Announced(cb, headers)
  {
    hide NamesCoding, NamesLength, EqualsIgnoreCase;
    assert (headers + [h])[..|headers|] == headers;
  }

  /** A header that makes sense is passed on, and its length or coding is followed. */
  lemma NextHeader(cb: Callbacks, m: Message, k: nat)
    requires k < |m.headers| && (m.headers[k].Fits() ==> Acceptable(cb, m.headers[k]))
    ensures var h, q := m.headers[k], AfterHeaders(cb, m, k + 1);
      if h.Fits() then TakeHeader(cb, AfterHeaders(cb, m, k), h.name, h.value) == LineResult(q, Continue, NoError)
      else AfterHeaders(cb, m, k) == q
  {
    var h, sent := m.headers[k], Fitting(m.headers[..k]);
    FittingSnoc(m.headers, k);
    if h.Fits() {
      HeaderTaken(cb, AfterHeaders(cb, m, k), h);
      EventsSnoc(cb, sent, h, [Leader(m.leader)]);
    } else {
      assert Fitting(m.headers[..k + 1]) == sent;
    }
    hide TakeHeader, NamesCoding, EqualsIgnoreCase, HeaderField.Fits, HeaderEvents, LastSaysChunked, Announced, Fitting;
  }

  /** The head without the blank line that follows the last header. */
  function Lines(m: Message, k: nat): string
    requires k <= |m.headers|
  {
    if k == 0 then m.Opening() else Head(m, k - 1) + m.headers[k - 1].OnWire()
  }

  lemma LinesStep(m: Message, k: nat)
    requires 0 < k <= |m.headers|
    ensures Lines(m, k) == Lines(m, k - 1) + m.headers[k - 1].OnWire()
  {
  }

  lemma WholeHead(m: Message)
    ensures Head(m, |m.headers|) == Lines(m, |m.headers|) + m.Blank()
  {
  }

  lemma OpeningWhole(m: Message)
    requires LeaderFits(m)
    ensures m.Opening() == m.leader + "\r" + "\n" && m.Blank() == CRLF
  {
  }

  lemma FeedLeader(cb: Callbacks, m: Message)
    requires Plain(m.leader) && LeaderFits(m)
    ensures Feed(cb, Settle(FRESH), Lines(m, 0))
         == AfterLine(LineResult(AfterHeaders(cb, m, 0), if cb.leader(m.leader) == NoError then Continue else Complete,
                                 cb.leader(m.leader)))
  {
    hide Feed, TrimRight;
    OpeningWhole(m);
    TrimRightOf(m.leader, "\r");
    FeedLine(cb, FRESH, m.leader + "\r");
  }

  lemma FeedHeader(cb: Callbacks, m: Message, k: nat)
    requires k < |m.headers| && Sendable(cb, m, k)
    ensures var h, r := m.headers[k], Feed(cb, Running(AfterHeaders(cb, m, k), ""), m.headers[k].OnWire());
      && (Sendable(cb, m, k + 1) <==> !h.Fits() || Acceptable(cb, h))
      && r == if !h.Fits() || Acceptable(cb, h) then Running(AfterHeaders(cb, m, k + 1), "")
              else Finished(AfterHeaders(cb, m, k), Protocol, "")
  {
    var h, q := m.headers[k], AfterHeaders(cb, m, k);
    if h.Fits() {
      FeedRendered(cb, q, h);
      if Acceptable(cb, h) {
        NextHeader(cb, m, k);
      } else {
        HeaderRefused(cb, q, h);
      }
    } else {
      NothingFed(cb, Running(q, ""));
      NextHeader(cb, m, k);
    }
    hide Feed, TakeHeader, Acceptable, LastSaysChunked, Announced, HeaderEvents, HeaderField.Fits, Fitting,
      KeepsToLines;
  }

  lemma HeaderRefused(cb: Callbacks, q: Parser, h: HeaderField)
    requires !Acceptable(cb, h)
    ensures TakeHeader(cb, q, h.name, h.value) == LineResult(q, Complete, Protocol)
  {
    CodingIsNotLength(h.name);
    hide EqualsIgnoreCase;
  }

  lemma NothingFed(cb: Callbacks, m: Machine)
    ensures Feed(cb, m, "") == m
  {
  }

  lemma FeedOpening(cb: Callbacks, m: Message)
    requires Sendable(cb, m, 0)
    ensures Feed(cb, Settle(FRESH), Lines(m, 0)) == Running(AfterHeaders(cb, m, 0), "")
  {
    FeedLeader(cb, m);
    hide Feed, Lines;
  }

  /** The next header is taken, or ends it; once it has ended, nothing changes that. */
  lemma FeedNextLine(cb: Callbacks, m: Message, k: nat, r: Machine)
    requires k < |m.headers| && Sendable(cb, m, 0)
    requires if Sendable(cb, m, k) then r == Running(AfterHeaders(cb, m, k), "") else r.Finished? && r.error == Protocol
    ensures var r' := Feed(cb, r, m.headers[k].OnWire());
      if Sendable(cb, m, k + 1) then r' == Running(AfterHeaders(cb, m, k + 1), "")
      else r'.Finished? && r'.error == Protocol
  {
    hide Feed, AfterHeaders, Sendable, HeaderField.OnWire, HeaderField.Fits, Acceptable;
    SendableSooner(cb, m, k + 1);
    if Sendable(cb, m, k) {
      FeedHeader(cb, m, k);
    } else {
      FeedFinished(cb, r, m.headers[k].OnWire());
    }
  }

  /** Headers that make sense are taken one by one; the first that does not ends it. */
  lemma {:induction false} FeedLines(cb: Callbacks, m: Message, k: nat)
    requires k <= |m.headers| && Sendable(cb, m, 0)
    ensures var r := Feed(cb, Settle(FRESH), Lines(m, k));
      if Sendable(cb, m, k) then r == Running(AfterHeaders(cb, m, k), "") else r.Finished? && r.error == Protocol
  {
    hide Feed, Settle, AfterHeaders, Sendable, Lines, HeaderField.OnWire;
    if k == 0 {
      FeedOpening(cb, m);
    } else {
      FeedLines(cb, m, k - 1);
      LinesStep(m, k);
      FeedConcat(cb, Settle(FRESH), Lines(m, k - 1), m.headers[k - 1].OnWire());
      FeedNextLine(cb, m, k - 1, Feed(cb, Settle(FRESH), Lines(m, k - 1)));
    }
  }

  lemma SendableSooner(cb: Callbacks, m: Message, k: nat)
    requires 0 < k <= |m.headers|
    ensures Sendable(cb, m, k) ==> Sendable(cb, m, k - 1)
  {
    hide Acceptable, HeaderField.Fits, KeepsToLines, LeaderFits;
  }

  /** The parser as its owner sees it when the head is complete. */
  function Asked(cb: Callbacks, m: Message): Parser {
    var sent := Fitting(m.headers);
    var chunked := LastSaysChunked(sent);
    Parser(if chunked then StChunkSize else StData, chunked, Announced(cb, sent),
           [Leader(m.leader)] + HeaderEvents(sent) + [HeadersComplete(chunked, Announced(cb, sent))], "")
  }

  function Reply(cb: Callbacks, m: Message): HeadersReply {
    cb.headersComplete(Asked(cb, m))
  }

  /** The parser when the owner has replied, who may set another length, refuse the head, or
      interrupt the parser. */
  function AfterHead(cb: Callbacks, m: Message): LineResult {
    var reply := Reply(cb, m);
    LineResult(Asked(cb, m).(dataSize := reply.dataSize),
               if reply.error != NoError then Complete else if reply.modelChanged then Block else Continue,
               reply.error)
  }

  lemma BlankLineTaken(cb: Callbacks, m: Message)
    ensures Line(cb, AfterHeaders(cb, m, |m.headers|), "") == AfterHead(cb, m)
  {
    assert m.headers[..|m.headers|] == m.headers;
    hide HeaderEvents, LastSaysChunked, Announced, Fitting;
  }

  lemma {:induction false} FeedHead(cb: Callbacks, m: Message)
    requires Sendable(cb, m, |m.headers|)
    ensures Feed(cb, Settle(FRESH), Head(m, |m.headers|)) == AfterLine(AfterHead(cb, m))
  {
    hide Feed, Settle, AfterLine, Line, AfterHead;
    var n := |m.headers|;
    FeedLines(cb, m, n);
    BlankLineTaken(cb, m);
    FeedBlankLine(cb, AfterHeaders(cb, m, n));
    FeedConcat(cb, Settle(FRESH), Lines(m, n), CRLF);
    OpeningWhole(m);
    WholeHead(m);
  }

  lemma AfterHeadState(cb: Callbacks, m: Message)
    ensures var q := AfterHead(cb, m).parser;
      && q.chunked == LastSaysChunked(Fitting(m.headers))
      && q.state == (if q.chunked then StChunkSize else StData) && q.body == ""
      && q.dataSize == Reply(cb, m).dataSize && AfterHead(cb, m).error == Reply(cb, m).error
      && q.events == [Leader(m.leader)] + HeaderEvents(Fitting(m.headers))
           + [HeadersComplete(q.chunked, Announced(cb, Fitting(m.headers)))]
  {
  }

  lemma {:induction false} PlainBody(parts: seq<string>)
    ensures Body(false, parts) == Concat(parts)
  {
    if parts != [] {
      PlainBody(parts[..|parts| - 1]);
    }
  }

  function DocumentText(m: Message, p: Progress): string {
    Body(m.Chunked(), p.parts) + (if p.lastChunk then LAST_CHUNK else "")
  }

  function Text(m: Message): string {
    if m.document.Some? then m.document.value else ""
  }

  // ---------- Which coding each side takes ----------

  ghost predicate FirstCodingIs(headers: seq<HeaderField>, i: nat) {
    i < |headers| && NamesCoding(headers[i]) && forall j :: 0 <= j < i ==> !NamesCoding(headers[j])
  }

  ghost predicate LastCodingIs(headers: seq<HeaderField>, i: nat) {
    i < |headers| && NamesCoding(headers[i]) && forall j :: i < j < |headers| ==> !NamesCoding(headers[j])
  }

  lemma {:induction false} FirstCodingDecides(headers: seq<HeaderField>)
    ensures Lookup(headers, "Transfer-Encoding") == Some("chunked")
      <==> exists i: nat :: FirstCodingIs(headers, i) && headers[i].value == "chunked"
  {
    if headers != [] {
      if NamesCoding(headers[0]) {
        assert FirstCodingIs(headers, 0);
      } else {
        var rest := headers[1..];
        FirstCodingDecides(rest);
        forall i: nat ensures FirstCodingIs(rest, i) <==> FirstCodingIs(headers, i + 1) {
          assert FirstCodingIs(rest, i) ==> forall j :: 0 < j < i + 1 ==> headers[j] == rest[j - 1];
          assert FirstCodingIs(headers, i + 1) ==> forall j :: 0 <= j < i ==> rest[j] == headers[j + 1];
        }
        if i: nat :| FirstCodingIs(headers, i) && headers[i].value == "chunked" {
          assert FirstCodingIs(rest, i - 1);
        }
        if i: nat :| FirstCodingIs(rest, i) && rest[i].value == "chunked" {
          assert FirstCodingIs(headers, i + 1);
        }
      }
    }
  }

  lemma {:induction false} LastCodingDecides(headers: seq<HeaderField>)
    ensures LastSaysChunked(headers)
      <==> exists i: nat :: LastCodingIs(headers, i) && EqualsIgnoreCase(headers[i].value, "chunked")
  {
    if headers != [] {
      var n := |headers| - 1;
      if NamesCoding(headers[n]) {
        assert LastCodingIs(headers, n);
      } else {
        var front := headers[..n];
        LastCodingDecides(front);
        forall i: nat ensures LastCodingIs(front, i) <==> LastCodingIs(headers, i) {
          assert LastCodingIs(front, i) ==> forall j :: i < j < n ==> headers[j] == front[j];
          assert LastCodingIs(headers, i) ==> forall j :: i < j < n ==> front[j] == headers[j];
        }
      }
    }
  }

  /** The sender goes by the first transfer coding, to the letter; the parser by the last of
      those that are sent, in any case. They agree exactly when these two say the same. */
  lemma CodingAgreedIff(cb: Callbacks, m: Message)
    requires Sendable(cb, m, |m.headers|)
    ensures Feed(cb, Settle(FRESH), Head(m, |m.headers|)) == AfterLine(AfterHead(cb, m))
    ensures var sent := Fitting(m.headers);
      AfterHead(cb, m).parser.chunked == m.Chunked()
      <==> ((exists i: nat :: FirstCodingIs(m.headers, i) && m.headers[i].value == "chunked")
            <==> (exists i: nat :: LastCodingIs(sent, i) && EqualsIgnoreCase(sent[i].value, "chunked")))
  {
    FeedHead(cb, m);
    AfterHeadState(cb, m);
    FirstCodingDecides(m.headers);
    LastCodingDecides(Fitting(m.headers));
    hide Feed, Head, AfterHead, AfterLine, Sendable;
  }

  predicate NoLength(headers: seq<HeaderField>) {
    forall i :: 0 <= i < |headers| ==> !NamesLength(headers[i])
  }

  ghost predicate LastLengthIs(headers: seq<HeaderField>, i: nat) {
    i < |headers| && NamesLength(headers[i]) && forall j :: i < j < |headers| ==> !NamesLength(headers[j])
  }

  /** The announced length is that of the last Content-Length, and unknown without one. */
  lemma {:induction false} AnnouncedIs(cb: Callbacks, headers: seq<HeaderField>)
    requires forall i :: 0 <= i < |headers| && NamesLength(headers[i]) ==> cb.contentLength(headers[i].value).Some?
    ensures forall i: nat ::
      LastLengthIs(headers, i) ==> cb.contentLength(headers[i].value) == Some(Announced(cb, headers))
    ensures NoLength(headers) ==> Announced(cb, headers) == SIZE_UNKNOWN
  {
    hide NamesLength;
    if headers != [] {
      var n := |headers| - 1;
      var front := headers[..n];
      assert forall i :: 0 <= i < n ==> front[i] == headers[i];
      if NamesLength(headers[n]) {
        LastIsLast(headers);
      } else {
        AnnouncedIs(cb, front);
        LastInFront(headers);
      }
    }
  }

  lemma LastIsLast(headers: seq<HeaderField>)
    requires headers != [] && NamesLength(headers[|headers| - 1])
    ensures forall i: nat :: LastLengthIs(headers, i) ==> i == |headers| - 1
  {
    hide NamesLength;
  }

  lemma LastInFront(headers: seq<HeaderField>)
    requires headers != [] && !NamesLength(headers[|headers| - 1])
    ensures forall i: nat :: LastLengthIs(headers, i) ==>
      LastLengthIs(headers[..|headers| - 1], i) && headers[i] == headers[..|headers| - 1][i]
  {
    hide NamesLength;
  }

  lemma {:induction false} FittingAcceptable(cb: Callbacks, headers: seq<HeaderField>)
    requires forall i :: 0 <= i < |headers| && headers[i].Fits() ==> Acceptable(cb, headers[i])
    ensures forall i :: 0 <= i < |Fitting(headers)| ==> Acceptable(cb, Fitting(headers)[i])
  {
    if headers != [] {
      FittingAcceptable(cb, headers[..|headers| - 1]);
    }
  }

  /** What the owner of the parser is told of the length: the number in the last of the
      Content-Length headers that are sent, or that it is unknown. */
  lemma LengthAnnounced(cb: Callbacks, m: Message)
    requires Sendable(cb, m, |m.headers|)
    ensures Feed(cb, Settle(FRESH), Head(m, |m.headers|)) == AfterLine(AfterHead(cb, m))
    ensures var sent := Fitting(m.headers);
      && (forall i: nat :: LastLengthIs(sent, i) ==> cb.contentLength(sent[i].value) == Some(Asked(cb, m).dataSize))
      && (NoLength(sent) ==> Asked(cb, m).dataSize == SIZE_UNKNOWN)
  {
    FeedHead(cb, m);
    FittingAcceptable(cb, m.headers);
    hide Feed, Settle, Head, AfterHead, AfterLine, NoLength, LastLengthIs, EqualsIgnoreCase, Fitting, Announced;
    AnnouncedIs(cb, Fitting(m.headers));
  }

  // ---------- A body of announced length ----------

  /** A body of announced length ends at that length. */
  lemma {:induction false} SizedBody(cb: Callbacks, q: Parser, body: string, extra: string)
    requires q.state == StData && !q.chunked && q.dataSize == |body| < SIZE_UNKNOWN
    ensures Feed(cb, Settle(q), body + extra) == Finished(q.(dataSize := 0, body := q.body + body), NoError, extra)
  {
    if body != "" {
      FeedData(cb, q, body);
    } else {
      assert q.body + body == q.body;
    }
    FeedConcat(cb, Settle(q), body, extra);
    FeedFinished(cb, Feed(cb, Settle(q), body), extra);
    assert "" + extra == extra;
  }

  /** And only there. */
  lemma SizedBodyIff(cb: Callbacks, q: Parser, text: string)
    requires q.state == StData && !q.chunked
    ensures var r := Feed(cb, Settle(q), text);
      && (r.Finished? && r.error == NoError && r.rest == "" <==> q.dataSize == |text| < SIZE_UNKNOWN)
      && (r.Finished? && r.rest == "" ==> r.parser.body == q.body + text)
  {
    if q.dataSize != SIZE_UNKNOWN && q.dataSize <= |text| {
      var n := q.dataSize;
      SizedBody(cb, q, text[..n], text[n..]);
      assert text == text[..n] + text[n..];
    } else if text != "" {
      FeedData(cb, q, text);
    }
  }

  // ---------- A chunk-coded body ----------

  lemma LineKeepsBody(cb: Callbacks, p: Parser, line: string)
    requires p.state.TakesLines()
    ensures Line(cb, p, line).parser.body == p.body
  {
    hide IndexOf, SkipSpaces, StrToUL, EqualsIgnoreCase;
  }

  lemma StepGrows(cb: Callbacks, m: Machine, c: char)
    ensures |Step(cb, m, c).parser.body| <= |m.parser.body| + 1
    ensures m.Running? && m.parser.state.TakesLines() ==> Step(cb, m, c).parser.body == m.parser.body
  {
    if m.Running? && m.parser.state.TakesLines() {
      LineKeepsBody(cb, m.parser, TrimRight(m.pending));
    }
    hide Line, TrimRight;
  }

  /** A document is never longer than the text it is read from. */
  lemma {:induction false} FeedGrows(cb: Callbacks, m: Machine, s: string)
    ensures |Feed(cb, m, s).parser.body| <= |m.parser.body| + |s|
    decreases |s|
  {
    if s != [] {
      StepGrows(cb, m, s[0]);
      FeedGrows(cb, Step(cb, m, s[0]), s[1..]);
    }
  }

  /** No text of which some is taken as lines stands for itself. */
  lemma LinesAreShorter(cb: Callbacks, m: Machine, text: string)
    requires m.Running? && m.parser.state.TakesLines() && m.parser.body == ""
    ensures var r := Feed(cb, m, text); r.Running? || r.parser.body != text
  {
    if text != "" {
      StepGrows(cb, m, text[0]);
      FeedGrows(cb, Step(cb, m, text[0]), text[1..]);
    }
  }

  lemma {:induction false} BodyIsLonger(parts: seq<string>)
    ensures |Body(true, parts)| >= |Concat(parts)|
  {
    if parts != [] {
      BodyIsLonger(parts[..|parts| - 1]);
    }
  }

  // ---------- Messages that do not get through ----------

  predicate InHead(m: Machine) {
    m.Running? && (m.parser.state == StLeader || m.parser.state == StHeaders)
  }

  function Newlines(s: string): nat {
    if s == "" then 0 else (if s[0] == '\n' then 1 else 0) + Newlines(s[1..])
  }

  lemma {:induction false} NewlinesConcat(a: string, b: string)
    ensures Newlines(a + b) == Newlines(a) + Newlines(b)
  {
    if a == "" {
      assert a + b == b;
    } else {
      NewlinesConcat(a[1..], b);
      assert (a + b)[1..] == a[1..] + b;
    }
  }

  lemma {:induction false} NoNewlines(s: string)
    requires '\n' !in s
    ensures Newlines(s) == 0
  {
    if s != "" {
      NoNewlines(s[1..]);
    }
  }

  lemma StepInHead(cb: Callbacks, m: Machine, c: char)
    ensures var r := Step(cb, m, c);
      && |r.parser.events| <= |m.parser.events| + (if c == '\n' then 1 else 0)
      && (!InHead(m) ==> !InHead(r) && r.parser.events == m.parser.events)
      && (InHead(r) ==> r.parser.body == m.parser.body)
      && (InHead(r) && c == '\n' ==> r == Running(r.parser, "") && r.parser.state == StHeaders)
  {
    hide IndexOf, SkipSpaces, StrToUL, EqualsIgnoreCase, TrimRight;
  }

  /** A line makes one event at most, and none behind the head. */
  lemma {:induction false} FeedInHead(cb: Callbacks, m: Machine, s: string)
    ensures var r := Feed(cb, m, s);
      && |r.parser.events| <= |m.parser.events| + Newlines(s)
      && (!InHead(m) ==> !InHead(r) && r.parser.events == m.parser.events)
      && (InHead(r) ==> r.parser.body == m.parser.body)
    decreases |s|
  {
    if s != "" {
      StepInHead(cb, m, s[0]);
      hide Step, InHead;
      FeedInHead(cb, Step(cb, m, s[0]), s[1..]);
    }
  }

  lemma EndOfLine(cb: Callbacks, m: Machine, s: string)
    requires InHead(Feed(cb, m, s + "\n"))
    ensures var r := Feed(cb, m, s + "\n"); r == Running(r.parser, "") && r.parser.state == StHeaders
  {
    FeedConcat(cb, m, s, "\n");
    StepInHead(cb, Feed(cb, m, s), '\n');
    assert Feed(cb, Feed(cb, m, s), "\n") == Feed(cb, Step(cb, Feed(cb, m, s), '\n'), "");
  }

  /** A head that is cut short has a line less than it should. */
  lemma {:induction false} NewlinesOfLines(m: Message, k: nat)
    requires KeepsToLines(m) && k <= |m.headers|
    ensures Newlines(Lines(m, k)) <= |Fitting(m.headers[..k])| + if |m.leader| + 2 < BUFFER_SIZE then 1 else 0
  {
    if k == 0 {
      NewlinesOfOpening(m);
      NoLines(m);
      hide Newlines, Message.Opening;
    } else {
      hide Lines, HeaderField.Fits, Newlines, KeepsToLines, Fitting;
      NewlinesOfLines(m, k - 1);
      NewlinesOfNext(m, k - 1);
    }
  }

  lemma NoLines(m: Message)
    ensures Lines(m, 0) == m.Opening() && Fitting(m.headers[..0]) == []
  {
  }

  lemma NewlinesOfNext(m: Message, k: nat)
    requires KeepsToLines(m) && k < |m.headers|
    ensures Newlines(Lines(m, k + 1)) == Newlines(Lines(m, k)) + if m.headers[k].Fits() then 1 else 0
    ensures |Fitting(m.headers[..k + 1])| == |Fitting(m.headers[..k])| + if m.headers[k].Fits() then 1 else 0
  {
    hide Lines, HeaderField.Fits, HeaderField.OnWire, WellFormedHeader, Newlines, Fitting;
    LinesStep(m, k + 1);
    NewlinesConcat(Lines(m, k), m.headers[k].OnWire());
    FittingSnoc(m.headers, k);
    NewlinesOfHeader(m.headers[k]);
  }

  lemma NewlinesOfHeader(h: HeaderField)
    requires h.Fits() ==> WellFormedHeader(h)
    ensures Newlines(h.OnWire()) == if h.Fits() then 1 else 0
  {
    hide HeaderField.Fits;
    if h.Fits() {
      var line := h.name + ": " + h.value + "\r";
      assert h.Render() == line + "\n" && '\n' !in line;
      NewlinesConcat(line, "\n");
      NoNewlines(line);
      assert Newlines("\n") == 1 + Newlines("");
    }
  }

  lemma NewlinesOfOpening(m: Message)
    requires Plain(m.leader)
    ensures Newlines(m.Opening()) <= if |m.leader| + 2 < BUFFER_SIZE then 1 else 0
  {
    if |m.leader| + 2 < BUFFER_SIZE {
      assert m.Opening() == m.leader + "\r" + "\n";
      NewlinesConcat(m.leader + "\r", "\n");
      NoNewlines(m.leader + "\r");
      assert Newlines("\n") == 1 + Newlines("");
    } else {
      NoNewlines(m.Opening());
    }
  }

  lemma NewlinesOfHead(m: Message)
    requires KeepsToLines(m) && !LeaderFits(m)
    ensures Newlines(Head(m, |m.headers|)) <= |Fitting(m.headers)| + 1
    ensures m.headers != [] ==> Head(m, |m.headers|) == Lines(m, |m.headers|) + "\r" + "\n"
  {
    var n := |m.headers|;
    NewlinesOfLines(m, n);
    assert m.headers[..n] == m.headers;
    WholeHead(m);
    NewlinesConcat(Lines(m, n), m.Blank());
    if m.headers == [] {
      assert '\n' !in m.Blank();
      NoNewlines(m.Blank());
    } else {
      NewlinesConcat("\r", "\n");
      assert CRLF == "\r" + "\n";
      assert Newlines("\n") == 1 + Newlines("") && Newlines("\r") == Newlines("");
    }
    hide Lines, Message.Opening;
  }

  /** Chunks do not pass for headers. */
  lemma {:induction false} ChunksAreNoHeaders(cb: Callbacks, q: Parser, parts: seq<string>)
    requires q.state == StHeaders && parts != []
    ensures var r := Feed(cb, Running(q, ""), Body(true, parts)); r.Finished? && r.error == Protocol
  {
    var front, last := parts[..|parts| - 1], parts[|parts| - 1];
    FeedConcat(cb, Running(q, ""), Body(true, front), Chunk(last));
    if front == [] {
      SizeIsNoHeader(cb, q, |last|, CHUNK_DIGITS, last + CRLF);
      assert "" + Chunk(last) == ToHex(|last|, CHUNK_DIGITS) + CRLF + (last + CRLF);
    } else {
      ChunksAreNoHeaders(cb, q, front);
      FeedFinished(cb, Feed(cb, Running(q, ""), Body(true, front)), Chunk(last));
    }
  }

  lemma SizeIsNoHeader(cb: Callbacks, q: Parser, size: nat, width: nat, rest: string)
    requires q.state == StHeaders && width > 0
    ensures var r := Feed(cb, Running(q, ""), ToHex(size, width) + CRLF + rest); r.Finished? && r.error == Protocol
  {
    var hex := ToHex(size, width);
    TrimRightOf(hex, "\r");
    FeedLine(cb, q, hex + "\r");
    assert hex + CRLF == hex + "\r" + "\n";
    assert forall k :: 0 <= k < |hex| ==> IsHexDigit(hex[k]) && hex[k] != ':';
    FeedConcat(cb, Running(q, ""), hex + CRLF, rest);
    FeedFinished(cb, Feed(cb, Running(q, ""), hex + CRLF), rest);
  }

  /** A document that arrives while headers are expected is not taken for a document. */
  lemma DocumentInHead(cb: Callbacks, m: Message, p: Progress, r: Machine)
    requires Consistent(m, p) && AllQueued(m, p) && InHead(r) && r.parser.body == ""
    requires m.Chunked() ==> r == Running(r.parser, "") && r.parser.state == StHeaders
    ensures var r' := Feed(cb, r, DocumentText(m, p)); r'.Finished? && r'.error == NoError ==> r'.parser.body != Text(m)
  {
    if !m.Chunked() || m.document.None? {
      PlainText(m, p);
      LinesAreShorter(cb, r, Text(m));
    } else {
      var body := Body(true, p.parts);
      assert DocumentText(m, p) == body + LAST_CHUNK;
      if p.parts == [] {
        assert Pow16(1) == 16 && ToHex(0, 1) == "0";
        SizeIsNoHeader(cb, r.parser, 0, 1, CRLF);
        assert body + LAST_CHUNK == "0" + CRLF + CRLF;
      } else {
        ChunksAreNoHeaders(cb, r.parser, p.parts);
        FeedConcat(cb, r, body, LAST_CHUNK);
        FeedFinished(cb, Feed(cb, r, body), LAST_CHUNK);
      }
    }
  }

  lemma ChunkedHasHeaders(m: Message)
    requires m.Chunked()
    ensures m.headers != []
  {
  }

  /** A leader too long for the buffer loses its line end, or the blank line behind it. */
  lemma LongLeaderIsLost(cb: Callbacks, m: Message, p: Progress)
    requires Consistent(m, p) && AllQueued(m, p) && KeepsToLines(m) && !LeaderFits(m)
    ensures !Arrived(Feed(cb, Settle(FRESH), Queued(m, p)), m)
  {
    var head, text := Head(m, |m.headers|), DocumentText(m, p);
    var r := Feed(cb, Settle(FRESH), head);
    NewlinesOfHead(m);
    FeedInHead(cb, Settle(FRESH), head);
    FeedConcat(cb, Settle(FRESH), head, text);
    assert Queued(m, p) == head + text;
    if InHead(r) {
      if m.Chunked() {
        ChunkedHasHeaders(m);
        EndOfLine(cb, Settle(FRESH), Lines(m, |m.headers|) + "\r");
      }
      DocumentInHead(cb, m, p, r);
    } else {
      FeedInHead(cb, r, text);
    }
    hide Feed, Head, Message.Chunked, Lines, DocumentText, KeepsToLines, LeaderFits, Consistent, AllQueued, Fitting,
      InHead, Newlines;
  }

  lemma {:induction false} FittingHas(headers: seq<HeaderField>, i: nat)
    requires i < |headers| && headers[i].Fits()
    ensures headers[i] in Fitting(headers)
  {
    var n := |headers| - 1;
    if i < n {
      FittingHas(headers[..n], i);
    }
  }

  /** What arrives as it was sent keeps to its lines. */
  lemma ArrivedKeepsToLines(cb: Callbacks, m: Message, s: string)
    requires Arrived(Feed(cb, Settle(FRESH), s), m)
    ensures KeepsToLines(m)
  {
    var events, headers := Feed(cb, Settle(FRESH), s).parser.events, Fitting(m.headers);
    FeedIsPassable(cb, Settle(FRESH), s, 0);
    assert events[0] == Leader(m.leader) && Passable(events[0]);
    forall i | 0 <= i < |m.headers| && m.headers[i].Fits() ensures WellFormedHeader(m.headers[i]) {
      FittingHas(m.headers, i);
      var j :| 0 <= j < |headers| && headers[j] == m.headers[i];
      assert events[j + 1] == HeaderEvents(headers)[j] && Passable(events[j + 1]);
    }
    hide Feed, Fitting, HeaderField.Fits, WellFormedHeader, Plain;
  }

  /** An error in the head is the end of the message. */
  lemma HeadRefused(cb: Callbacks, m: Message, p: Progress)
    requires AllQueued(m, p) && KeepsToLines(m) && LeaderFits(m)
    requires !Sendable(cb, m, |m.headers|) || AfterHead(cb, m).error != NoError
    ensures var r := Feed(cb, Settle(FRESH), Queued(m, p)); r.Finished? && r.error != NoError
  {
    var n := |m.headers|;
    if Sendable(cb, m, n) {
      FeedHead(cb, m);
      RefusedHeadEnds(cb, m);
    } else {
      if cb.leader(m.leader) == NoError {
        assert Sendable(cb, m, 0);
        FeedLines(cb, m, n);
      } else {
        LeaderRefused(cb, m, n);
      }
      WholeHead(m);
      RefusalStays(cb, Lines(m, n), m.Blank());
    }
    RefusalStays(cb, Head(m, n), DocumentText(m, p));
    hide Feed, Head, Lines, KeepsToLines, LeaderFits, AfterHead, AfterLine, Body, Message.Blank, Message.Chunked,
      Acceptable, HeaderField.Fits;
    assert Queued(m, p) == Head(m, n) + DocumentText(m, p);
  }

  lemma RefusedHeadEnds(cb: Callbacks, m: Message)
    ensures AfterHead(cb, m).error != NoError ==>
      var r := AfterLine(AfterHead(cb, m)); r.Finished? && r.error != NoError
  {
    hide AfterHeaders;
  }

  lemma RefusalStays(cb: Callbacks, a: string, b: string)
    requires var r := Feed(cb, Settle(FRESH), a); r.Finished? && r.error != NoError
    ensures var r := Feed(cb, Settle(FRESH), a + b); r.Finished? && r.error != NoError
  {
    FeedConcat(cb, Settle(FRESH), a, b);
    FeedFinished(cb, Feed(cb, Settle(FRESH), a), b);
  }

  lemma {:induction false} LeaderRefused(cb: Callbacks, m: Message, k: nat)
    requires k <= |m.headers| && Plain(m.leader) && LeaderFits(m) && cb.leader(m.leader) != NoError
    ensures var r := Feed(cb, Settle(FRESH), Lines(m, k)); r.Finished? && r.error != NoError
  {
    if k == 0 {
      FeedLeader(cb, m);
    } else {
      LeaderRefused(cb, m, k - 1);
      LinesStep(m, k);
      RefusalStays(cb, Lines(m, k - 1), m.headers[k - 1].OnWire());
    }
    hide Feed, Lines, HeaderField.OnWire;
  }

  // ---------- Whole messages ----------

  /** When a message can reach the other end: its head makes sense there, and is accepted;
      a body that is taken as chunks has been sent as chunks, with a document to end it; and
      any other has the length that the parser expects, and has not been cut into chunks. */
  predicate Deliverable(cb: Callbacks, m: Message) {
    && Sendable(cb, m, |m.headers|) && Reply(cb, m).error == NoError
    && if LastSaysChunked(Fitting(m.headers)) then m.Chunked() && m.document.Some?
       else (m.Chunked() ==> m.document.None?) && Reply(cb, m).dataSize == |Text(m)| < SIZE_UNKNOWN
  }

  /** With an owner that leaves the length alone, it is the last Content-Length that must
      announce the length of the document. */
  lemma DeliverableByLength(cb: Callbacks, m: Message, i: nat)
    requires Sendable(cb, m, |m.headers|) && !LastSaysChunked(Fitting(m.headers))
    requires Reply(cb, m).error == NoError && Reply(cb, m).dataSize == Asked(cb, m).dataSize
    requires LastLengthIs(Fitting(m.headers), i)
    ensures Deliverable(cb, m)
      <==> (m.Chunked() ==> m.document.None?)
           && cb.contentLength(Fitting(m.headers)[i].value) == Some(|Text(m)|) && |Text(m)| < SIZE_UNKNOWN
  {
    LengthAnnounced(cb, m);
    hide Sendable, Feed, Head, Message.Chunked, AfterLine;
  }

  /** The message as it was meant: the leader, the headers that fit the buffer, in order,
      and the document, with no error and nothing left over. */
  predicate Arrived(r: Machine, m: Message) {
    var events := r.parser.events;
    && r.Finished? && r.error == NoError && r.rest == "" && r.parser.body == Text(m)
    && events != [] && events[|events| - 1].HeadersComplete?
    && events[..|events| - 1] == [Leader(m.leader)] + HeaderEvents(Fitting(m.headers))
  }

  /** A deliverable message survives the trip: its leader, its headers in order, and its
      document, chunked or of announced length, however it was cut up on the way;
      and the parser stops exactly at its end. */
  lemma {:induction false} MessageRoundTrip(cb: Callbacks, m: Message, p: Progress, extra: string)
    requires Consistent(m, p) && AllQueued(m, p) && Deliverable(cb, m)
    ensures var r := Feed(cb, Settle(FRESH), Queued(m, p) + extra);
      && r.Finished? && r.error == NoError && r.rest == extra
      && r.parser.body == Text(m)
      && r.parser.events == [Leader(m.leader)] + HeaderEvents(Fitting(m.headers))
           + [HeadersComplete(LastSaysChunked(Fitting(m.headers)), Announced(cb, Fitting(m.headers)))]
  {
    hide Feed, Sendable, AfterHead, Reply, Settle, HeaderEvents, LastSaysChunked, Announced, Fitting;
    var q := AfterHead(cb, m).parser;
    AfterHeadState(cb, m);
    FeedMessage(cb, m, p, extra);
    if q.chunked {
      ChunkedBodyRoundTrip(cb, q, p.parts, extra);
      SettledHead(q);
    } else {
      PlainText(m, p);
      SizedBody(cb, q, Text(m), extra);
    }
    assert "" + Text(m) == Text(m);
  }

  lemma SettledHead(q: Parser)
    requires q.state == StChunkSize
    ensures Settle(q) == Running(q, "")
  {
  }

  /** What is sent after the head, unless it is cut into chunks. */
  lemma PlainText(m: Message, p: Progress)
    requires Consistent(m, p) && AllQueued(m, p) && (m.Chunked() ==> m.document.None?)
    ensures DocumentText(m, p) == Text(m)
  {
    PlainBody(p.parts);
  }

  lemma HeadAccepted(cb: Callbacks, m: Message)
    requires AfterHead(cb, m).error == NoError
    ensures AfterLine(AfterHead(cb, m)) == Settle(AfterHead(cb, m).parser)
  {
    hide AfterHeaders;
  }

  /** What follows the head is fed to the parser that has read the head. */
  lemma FeedMessage(cb: Callbacks, m: Message, p: Progress, extra: string)
    requires Sendable(cb, m, |m.headers|) && AfterHead(cb, m).error == NoError && p.headersPassed == |m.headers|
    ensures Feed(cb, Settle(FRESH), Queued(m, p) + extra)
         == Feed(cb, Settle(AfterHead(cb, m).parser), DocumentText(m, p) + extra)
  {
    hide Feed, Sendable, AfterHead, Settle, Head, Body, Message.Chunked;
    FeedHead(cb, m);
    HeadAccepted(cb, m);
    FeedConcat(cb, Settle(FRESH), Head(m, |m.headers|), DocumentText(m, p) + extra);
    assert Queued(m, p) + extra == Head(m, |m.headers|) + (DocumentText(m, p) + extra);
  }

  /** With a head that makes sense, it is the body that decides. */
  lemma BodyDecides(cb: Callbacks, m: Message, p: Progress)
    requires Consistent(m, p) && AllQueued(m, p) && Sendable(cb, m, |m.headers|) && AfterHead(cb, m).error == NoError
    ensures var r := Feed(cb, Settle(FRESH), Queued(m, p));
      r.Finished? && r.error == NoError && r.rest == "" && r.parser.body == Text(m) ==> Deliverable(cb, m)
    ensures AfterHead(cb, m).parser.chunked && m.Chunked() && m.document.None? ==>
      Feed(cb, Settle(FRESH), Queued(m, p)) == Running(AfterHead(cb, m).parser, "")
  {
    hide Feed, Sendable, AfterHead, Reply, HeaderEvents, LastSaysChunked, Announced, Fitting;
    var q, text := AfterHead(cb, m).parser, DocumentText(m, p);
    AfterHeadState(cb, m);
    FeedMessage(cb, m, p, "");
    assert Queued(m, p) + "" == Queued(m, p) && text + "" == text;
    if q.chunked {
      SettledHead(q);
      if m.Chunked() {
        NothingFed(cb, Settle(q));
      } else {
        PlainText(m, p);
        LinesAreShorter(cb, Settle(q), text);
      }
    } else {
      SizedBodyIff(cb, q, text);
      assert "" + text == text;
      if m.Chunked() && m.document.Some? {
        BodyIsLonger(p.parts);
      } else {
        PlainText(m, p);
      }
    }
  }

  /** Any message arrives as it was meant if and only if it is deliverable. In particular a
      body announced as chunked but without a document is never ended, and the parser still
      waits for its first chunk. */
  lemma {:induction false} DeliveredIff(cb: Callbacks, m: Message, p: Progress)
    requires Consistent(m, p) && AllQueued(m, p)
    ensures Arrived(Feed(cb, Settle(FRESH), Queued(m, p)), m) <==> Deliverable(cb, m)
    ensures Sendable(cb, m, |m.headers|) && Reply(cb, m).error == NoError &&
            LastSaysChunked(Fitting(m.headers)) && m.Chunked() && m.document.None? ==>
      Feed(cb, Settle(FRESH), Queued(m, p)) == Running(AfterHead(cb, m).parser, "")
  {
    hide Arrived, Deliverable, Feed, Queued, Sendable, Reply, AfterHead;
    if Deliverable(cb, m) {
      DeliverableArrives(cb, m, p);
    }
    if Arrived(Feed(cb, Settle(FRESH), Queued(m, p)), m) {
      ArrivedIsDeliverable(cb, m, p);
    }
    AfterHeadState(cb, m);
    if Sendable(cb, m, |m.headers|) && Reply(cb, m).error == NoError {
      BodyDecides(cb, m, p);
    }
  }

  lemma DeliverableArrives(cb: Callbacks, m: Message, p: Progress)
    requires Consistent(m, p) && AllQueued(m, p) && Deliverable(cb, m)
    ensures Arrived(Feed(cb, Settle(FRESH), Queued(m, p)), m)
  {
    MessageRoundTrip(cb, m, p, "");
    assert Queued(m, p) + "" == Queued(m, p);
    hide Feed, Settle, Queued, Deliverable, HeaderEvents, LastSaysChunked, Announced, Fitting;
  }

  lemma ArrivedIsDeliverable(cb: Callbacks, m: Message, p: Progress)
    requires Consistent(m, p) && AllQueued(m, p) && Arrived(Feed(cb, Settle(FRESH), Queued(m, p)), m)
    ensures Deliverable(cb, m)
  {
    ArrivedKeepsToLines(cb, m, Queued(m, p));
    if !LeaderFits(m) {
      LongLeaderIsLost(cb, m, p);
      assert false;
    }
    if !Sendable(cb, m, |m.headers|) || AfterHead(cb, m).error != NoError {
      HeadRefused(cb, m, p);
      assert false;
    }
    BodyDecides(cb, m, p);
    hide Feed, Settle, Queued, Deliverable, HeaderEvents, Fitting;
  }

  /** End to end: a receiver that has read what a sender has sent, in whatever pieces, and
      that reports the end of the message, holds it as it was meant, with no error and
      nothing left over, exactly when the message is deliverable; and then it cannot
      still be waiting. */
  lemma EndToEnd(s: HttpSender, r: R.HttpReceiver, error: HttpError)
    requires s.Valid() && AllQueued(s.message, s.progress)
    requires r.received == Queued(s.message, s.progress) && r.len <= r.buffer.Length
    ensures Deliverable(r.cb, s.message) ==> !r.Drained()
    ensures Feed(r.cb, Settle(FRESH), r.received) == Finished(r.Abs(), error, r.buffer[..r.len]) ==>
      (Arrived(Finished(r.Abs(), error, r.buffer[..r.len]), s.message) <==> Deliverable(r.cb, s.message))
  {
    hide Feed, Settle, Queued, Deliverable;
    DeliveredIff(r.cb, s.message, s.progress);
  }
}
