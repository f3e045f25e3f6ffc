/** The incremental HTTP parser.  `Feed` is the reference: a machine that takes
    the stream one character at a time.  `HttpReceiving.HttpReceiver.Process` is
    the buffered form of the source, which is handed arbitrary pieces of the
    stream and leaves an unfinished line in its caller's buffer; it is proved to
    agree with `Feed` whatever the pieces are and however much the document
    accepts at a time. */
module HttpParsing {
  import opened HttpText
  import opened Options

  datatype HttpError =
    NoError | Protocol | Disconnected | Overflow | ConnectFailed | SocketError
    | Auth | CertificateExpired | StreamFailure | OtherError(code: nat)

  datatype ProcessResult = Continue | Block | Complete

  datatype State =
    StLeader | StHeaders | StChunkSize | StChunkTerm | StTrailers | StData | StComplete
  {
    /** The states that consume whole lines, `state_ < ST_DATA`. */
    predicate TakesLines() {
      !StData? && !StComplete?
    }
  }

  datatype Event =
    | Leader(line: string)
    | Header(name: string, value: string)
    | HeadersComplete(chunked: bool, dataSize: Size)

  /** What the parser has learned: its three fields, and what it has passed on. */
  datatype Parser = Parser(state: State, chunked: bool, dataSize: Size, events: seq<Event>, body: string)

  datatype HeadersReply = HeadersReply(error: HttpError, dataSize: Size, modelChanged: bool)

  /** The code behind the parser's callbacks: how a leader is judged, what
      `sscanf("%u")` makes of a content length, and how the owner of the
      connection answers a complete header section. */
  datatype Callbacks = Callbacks(
    leader: string -> HttpError,
    contentLength: string -> Option<Size>,
    headersComplete: (Parser) -> HeadersReply)

  const FRESH := Parser(StLeader, false, SIZE_UNKNOWN, [], "")

  datatype LineResult = LineResult(parser: Parser, result: ProcessResult, error: HttpError)

  function Failed(p: Parser): LineResult {
    LineResult(p, Complete, Protocol)
  }

  /** A header: the length and the transfer coding are acted on, and every header
      that makes sense is passed on. */
  function TakeHeader(cb: Callbacks, p: Parser, name: string, value: string): LineResult {
    var emit := p.(events := p.events + [Header(name, value)]);
    if EqualsIgnoreCase(name, "Content-Length") then
      var n := cb.contentLength(value);
      if n.None? then Failed(p) else LineResult(emit.(dataSize := n.value), Continue, NoError)
    else if EqualsIgnoreCase(name, "Transfer-Encoding") then
      if EqualsIgnoreCase(value, "chunked") then LineResult(emit.(chunked := true), Continue, NoError)
      else if EqualsIgnoreCase(value, "identity") then LineResult(emit.(chunked := false), Continue, NoError)
      else Failed(p)
    else LineResult(emit, Continue, NoError)
  }

  /** A header line is split at its first colon. */
  function HeaderLine(cb: Callbacks, p: Parser, line: string): LineResult {
    var colon := IndexOf(line, ':');
    if colon == |line| then Failed(p)
    else TakeHeader(cb, p, line[..colon], line[SkipSpaces(line, colon + 1)..])
  }

  /** The blank line that ends the headers. */
  function HeadersEnd(cb: Callbacks, p: Parser): LineResult {
    var p1 := p.(state := if p.chunked then StChunkSize else StData,
                 events := p.events + [HeadersComplete(p.chunked, p.dataSize)]);
    var reply := cb.headersComplete(p1);
    var p2 := p1.(dataSize := reply.dataSize);
    if reply.error != NoError then LineResult(p2, Complete, reply.error)
    else LineResult(p2, if reply.modelChanged then Block else Continue, NoError)
  }

  /** `ProcessLine` on a line whose trailing whitespace is gone. */
  function Line(cb: Callbacks, p: Parser, line: string): LineResult
    requires p.state.TakesLines()
  {
    match p.state
    case StLeader =>
      var p1 := p.(state := StHeaders, events := p.events + [Leader(line)]);
      var error := cb.leader(line);
      LineResult(p1, if error == NoError then Continue else Complete, error)
    case StHeaders =>
      if |line| > 0 then HeaderLine(cb, p, line) else HeadersEnd(cb, p)
    case StChunkSize =>
      if |line| == 0 then Failed(p)
      else
        var (size, end) := StrToUL(line);
        var p1 := p.(dataSize := size);
        if end != |line| then Failed(p1)
        else LineResult(p1.(state := if size == 0 then StTrailers else StData), Continue, NoError)
    case StChunkTerm =>
      if |line| > 0 then Failed(p)
      else LineResult(p.(state := if p.chunked then StChunkSize else StData), Continue, NoError)
    case StTrailers =>
      LineResult(p, if |line| == 0 then Complete else Continue, NoError)
  }

  /** The reference machine.  A message that is over, well or badly, collects
      whatever follows it in `rest`. */
  datatype Machine =
    | Running(parser: Parser, pending: string)
    | Finished(parser: Parser, error: HttpError, rest: string)

  /** Steps that need no input: the end of a chunk, the end of a sized body. */
  function Settle(p: Parser): Machine {
    if p.state == StData && p.dataSize == 0 then
      if p.chunked then Running(p.(state := StChunkTerm), "") else Finished(p, NoError, "")
    else Running(p, "")
  }

  function TakeData(p: Parser, data: string): Parser
    requires p.dataSize == SIZE_UNKNOWN || |data| <= p.dataSize
  {
    p.(body := p.body + data,
       dataSize := if p.dataSize == SIZE_UNKNOWN then SIZE_UNKNOWN else p.dataSize - |data|)
  }

  function AfterLine(r: LineResult): Machine {
    if r.result == Complete then Finished(r.parser, r.error, "") else Settle(r.parser)
  }

  function Step(cb: Callbacks, m: Machine, c: char): Machine {
    match m
    case Finished(p, error, rest) => Finished(p, error, rest + [c])
    case Running(p, pending) =>
      if p.state.TakesLines() then
        if c == '\n' then AfterLine(Line(cb, p, TrimRight(pending))) else Running(p, pending + [c])
      else if p.state == StData && p.dataSize > 0 then Settle(TakeData(p, [c]))
      else Finished(p, NoError, [c])
  }

  function Feed(cb: Callbacks, m: Machine, s: string): Machine
    decreases |s|
  {
    if s == [] then m else Feed(cb, Step(cb, m, s[0]), s[1..])
  }

  /** Feeding a stream in two pieces is feeding it whole. */
  lemma {:induction false} FeedConcat(cb: Callbacks, m: Machine, a: string, b: string)
    ensures Feed(cb, m, a + b) == Feed(cb, Feed(cb, m, a), b)
    decreases |a|
  {
    if a == [] {
      assert a + b == b;
    } else {
      assert (a + b)[1..] == a[1..] + b;
      FeedConcat(cb, Step(cb, m, a[0]), a[1..], b);
    }
  }

  lemma {:induction false} FeedFinished(cb: Callbacks, m: Machine, s: string)
    requires m.Finished?
    ensures Feed(cb, m, s) == m.(rest := m.rest + s)
    decreases |s|
  {
    if s == [] {
      assert m.rest + s == m.rest;
    } else {
      FeedFinished(cb, Step(cb, m, s[0]), s[1..]);
      assert m.rest + [s[0]] + s[1..] == m.rest + s;
    }
  }

  /** Text without a newline only lengthens the unfinished line. */
  lemma {:induction false} FeedPending(cb: Callbacks, p: Parser, pending: string, s: string)
    requires p.state.TakesLines() && '\n' !in s
    ensures Feed(cb, Running(p, pending), s) == Running(p, pending + s)
    decreases |s|
  {
    if s == [] {
      assert pending + s == pending;
    } else {
      FeedPending(cb, p, pending + [s[0]], s[1..]);
      assert pending + [s[0]] + s[1..] == pending + s;
    }
  }

  /** A line and its newline are consumed as one. */
  lemma {:induction false} FeedLine(cb: Callbacks, p: Parser, line: string)
    requires p.state.TakesLines() && '\n' !in line
    ensures Feed(cb, Running(p, ""), line + "\n") == AfterLine(Line(cb, p, TrimRight(line)))
  {
    FeedConcat(cb, Running(p, ""), line, "\n");
    FeedPending(cb, p, "", line);
    assert "" + line == line;
    var m := Running(p, line);
    assert Feed(cb, m, "\n") == Feed(cb, Step(cb, m, '\n'), []);
  }

  /** Document data is consumed in any amount up to what is expected. */
  lemma {:induction false} FeedData(cb: Callbacks, p: Parser, data: string)
    requires p.state == StData && p.dataSize > 0 && |data| > 0
    requires p.dataSize == SIZE_UNKNOWN || |data| <= p.dataSize
    ensures Feed(cb, Running(p, ""), data) == Settle(TakeData(p, data))
    decreases |data|
  {
    var p1 := TakeData(p, [data[0]]);
    if |data| == 1 {
      assert data == [data[0]];
      assert Feed(cb, Running(p, ""), data) == Feed(cb, Settle(p1), []);
    } else {
      FeedData(cb, p1, data[1..]);
      assert p.body + [data[0]] + data[1..] == p.body + data;
      assert TakeData(p1, data[1..]) == TakeData(p, data);
    }
  }

  /** `m` stands after the first `from` characters; feed it the slice up to `to`. */
  lemma FeedSlice(cb: Callbacks, start: Machine, m: Machine, s: string, from: nat, to: nat)
    requires from <= to <= |s| && Feed(cb, start, s[..from]) == m
    ensures Feed(cb, start, s[..to]) == Feed(cb, m, s[from..to])
  {
    FeedConcat(cb, start, s[..from], s[from..to]);
    assert s[..to] == s[..from] + s[from..to];
  }
}
