/** The receiving half of `HttpBase`: the parser with its fields updated in place,
    and the loop that pumps the network stream through a fixed buffer into it. */
module HttpReceiving {
  import opened HttpText
  import opened HttpParsing
  import opened Arrays
  import opened Options

  const MAX_READ_COUNT: nat := 20

  /** One answer of the network stream to a read. */
  datatype ReadResult = ReadSuccess(data: string) | ReadBlock | ReadEos | ReadError(error: nat)

  datatype ErrorCodes = ErrorCodes(accessDenied: nat, certificateExpired: nat)

  lemma SettledAsItIs(p: Parser)
    requires p.state == StData ==> p.dataSize > 0
    ensures Settle(p) == Running(p, "")
  {
  }

  lemma SettledAtEnd(p: Parser)
    requires p.state == StData && p.dataSize == 0
    ensures Settle(p) == if p.chunked then Running(p.(state := StChunkTerm), "") else Finished(p, NoError, "")
  {
  }

  /** Why `DoReceiveLoop` returned. */
  datatype Outcome =
    | Waiting        // the stream has nothing more to read
    | Stalled        // the document or the owner interrupted the parser
    | Starving       // the read limit was reached
    | MessageOver    // the parser came to the end of the message, or to an error
    | StreamEnded    // the stream was closed or broke
    | HeaderTooLong  // one line fills the whole buffer
    | DocumentFailed // the document refused the data

  class HttpReceiver {
    const cb: Callbacks
    const codes: ErrorCodes
    const buffer: array<char>

    var state: State
    var chunked: bool
    var dataSize: Size
    var events: seq<Event>
    var body: string
    var len: nat

    /** Everything read from the network stream so far. */
    ghost var received: string
    /** What the network stream has answered, in order. */
    ghost var answers: seq<ReadResult>
    /** How often the owner or the document has interrupted the parser. */
    ghost var stalls: nat
    /** Set once the document has refused data with an error. */
    var documentFailed: bool

    function Abs(): Parser
      reads this
    {
      Parser(state, chunked, dataSize, events, body)
    }

    /** The machine that has been fed the whole stream is the machine in the
        parser's present state, fed what is still in the buffer. */
    ghost predicate Valid()
      reads this, buffer
    {
      && buffer.Length == BUFFER_SIZE
      && len <= BUFFER_SIZE
      && !state.StComplete?
      && Feed(cb, Settle(FRESH), received) == Feed(cb, Settle(Abs()), buffer[..len])
    }

    constructor (cb: Callbacks, codes: ErrorCodes)
      ensures Valid() && Abs() == FRESH && len == 0 && received == ""
      ensures this.cb == cb && this.codes == codes && fresh(buffer) && !documentFailed
      ensures Drained()
    {
      this.cb, this.codes := cb, codes;
      buffer := new char[BUFFER_SIZE](_ => '\0');
      state, chunked, dataSize, events, body := StLeader, false, SIZE_UNKNOWN, [], "";
      len := 0;
      received, answers, stalls, documentFailed := "", [], 0, false;
    }

    /** The parser's transitions on one line, field by field. */
    method ProcessLine(line: string) returns (result: ProcessResult, error: HttpError)
      requires state.TakesLines()
      modifies this`state, this`chunked, this`dataSize, this`events, this`stalls
      ensures LineResult(Abs(), result, error) == Line(cb, old(Abs()), line)
      ensures stalls == old(stalls) + if result == Block then 1 else 0
      ensures !state.StComplete? && (result != Complete ==> error == NoError)
    {
      error := NoError;
      match state {
        case StLeader =>
          state := StHeaders;
          events := events + [Leader(line)];
          error := cb.leader(line);
          return if error == NoError then Continue else Complete, error;
        case StHeaders =>
          if |line| > 0 {
            var colon := IndexOf(line, ':');
            if colon == |line| {
              return Complete, Protocol;
            }
            var name := line[..colon];
            var value := line[SkipSpaces(line, colon + 1)..];
            if EqualsIgnoreCase(name, "Content-Length") {
              var n := cb.contentLength(value);
              if n.None? {
                return Complete, Protocol;
              }
              dataSize := n.value;
            } else if EqualsIgnoreCase(name, "Transfer-Encoding") {
              if EqualsIgnoreCase(value, "chunked") {
                chunked := true;
              } else if EqualsIgnoreCase(value, "identity") {
                chunked := false;
              } else {
                return Complete, Protocol;
              }
            }
            events := events + [Header(name, value)];
          } else {
            state := if chunked then StChunkSize else StData;
            events := events + [HeadersComplete(chunked, dataSize)];
            var reply := cb.headersComplete(Abs());
            dataSize := reply.dataSize;
            if reply.error != NoError {
              return Complete, reply.error;
            }
            stalls := stalls + if reply.modelChanged then 1 else 0;
            return if reply.modelChanged then Block else Continue, NoError;
          }
        case StChunkSize =>
          if |line| == 0 {
            return Complete, Protocol;
          }
          var (size, end) := StrToUL(line);
          dataSize := size;
          if end != |line| {
            return Complete, Protocol;
          }
          state := if size == 0 then StTrailers else StData;
        case StChunkTerm =>
          if |line| > 0 {
            return Complete, Protocol;
          }
          state := if chunked then StChunkSize else StData;
        case StTrailers =>
          if |line| == 0 {
            return Complete, NoError;
          }
      }
      result := Continue;
    }

    /** The document takes some of the data, blocks, or fails; which of them is
        up to it, but a success takes at least one byte. */
    method ProcessData(data: string) returns (result: ProcessResult, read: nat, error: HttpError)
      requires |data| > 0 && !documentFailed
      modifies this`body, this`documentFailed, this`stalls
      ensures stalls == old(stalls) + if result == Block then 1 else 0
      ensures result == Continue ==> 1 <= read <= |data| && body == old(body) + data[..read]
      ensures result != Continue ==> body == old(body)
      ensures documentFailed <==> result == Complete
      ensures error == if result == Complete then StreamFailure else NoError
    {
      read, error := 0, NoError;
      var taken: nat := *;
      if 1 <= taken <= |data| {
        read := taken;
        body := body + data[..taken];
        return Continue, read, error;
      }
      var failing: bool := *;
      if failing {
        documentFailed := true;
        return Complete, 0, StreamFailure;
      }
      stalls := stalls + 1;
      return Block, 0, error;
    }

    /** The position of the first newline at or after `from`, or `n`. */
    method FindNewline(from: nat, n: nat) returns (pos: nat)
      requires from <= n <= buffer.Length
      ensures from <= pos <= n && '\n' !in buffer[from..pos]
      ensures pos < n ==> buffer[pos] == '\n'
    {
      pos := from;
      while pos < n && buffer[pos] != '\n'
        invariant from <= pos <= n && '\n' !in buffer[from..pos]
      {
        pos := pos + 1;
      }
    }

    /** Where the line at `from..pos` ends once its trailing whitespace is dropped. */
    method TrimEnd(from: nat, pos: nat) returns (end: nat)
      requires from <= pos <= buffer.Length
      ensures from <= end <= pos && buffer[from..end] == TrimRight(buffer[from..pos])
    {
      end := pos;
      while end > from && IsSpace(buffer[end - 1])
        invariant from <= end <= pos
        invariant TrimRight(buffer[from..end]) == TrimRight(buffer[from..pos])
      {
        assert buffer[from..end][..end - from - 1] == buffer[from..end - 1];
        end := end - 1;
      }
    }

    /** Consumes the line at `from..pos` and the newline at `pos`. */
    method TakeLine(from: nat, pos: nat) returns (result: ProcessResult, error: HttpError)
      requires from <= pos < buffer.Length && buffer[pos] == '\n' && '\n' !in buffer[from..pos]
      requires state.TakesLines()
      modifies this`state, this`chunked, this`dataSize, this`events, this`stalls
      ensures stalls == old(stalls) + if result == Block then 1 else 0
      ensures !state.StComplete? && (result != Complete ==> error == NoError)
      ensures Feed(cb, Settle(old(Abs())), buffer[from..pos + 1])
           == if result == Complete then Finished(Abs(), error, "") else Settle(Abs())
    {
      ghost var before := Abs();
      var end := TrimEnd(from, pos);
      ghost var text := buffer[from..pos];
      result, error := ProcessLine(buffer[from..end]);
      assert buffer[from..pos + 1] == text + "\n";
      FeedLine(cb, before, text);
      assert Settle(before) == Running(before, "");
    }

    /** Offers the document what is left of the chunk, or of the input. */
    method TakeData(from: nat, n: nat) returns (result: ProcessResult, processed: nat, error: HttpError)
      requires from < n <= buffer.Length && state == StData && dataSize > 0 && !documentFailed
      modifies this`body, this`dataSize, this`documentFailed, this`stalls
      ensures stalls == old(stalls) + if result == Block then 1 else 0
      ensures from <= processed <= n && (result == Continue ==> from < processed)
      ensures documentFailed <==> result == Complete
      ensures error == if result == Complete then StreamFailure else NoError
      ensures Feed(cb, Settle(old(Abs())), buffer[from..processed]) == Settle(Abs())
    {
      ghost var before := Abs();
      processed := from;
      var available := n - from;
      if dataSize != SIZE_UNKNOWN && available > dataSize {
        available := dataSize;
      }
      var data, read := buffer[from..from + available], 0;
      result, read, error := ProcessData(data);
      if result != Continue {
        return;
      }
      processed := from + read;
      if dataSize != SIZE_UNKNOWN {
        dataSize := dataSize - read;
      }
      SubSlice(buffer, from, from + available, from, processed);
      FeedData(cb, before, data[..read]);
    }

    /** One turn of the loop of `Process`: a line, the data at hand, or the end of a
        body; `done` when the loop is to be left. */
    method Round(n: nat, from: nat, ghost start: Machine)
      returns (done: bool, result: ProcessResult, processed: nat, error: HttpError)
      requires from <= n <= buffer.Length && !state.StComplete? && !documentFailed
      requires Feed(cb, start, buffer[..n][..from]) == Settle(Abs())
      modifies this`state, this`chunked, this`dataSize, this`events, this`body, this`documentFailed, this`stalls
      ensures stalls == old(stalls) + if result == Block then 1 else 0
      ensures from <= processed <= n && !state.StComplete?
      ensures documentFailed || result != Complete ==> Feed(cb, start, buffer[..n][..processed]) == Settle(Abs())
      ensures documentFailed ==> result == Complete && error == StreamFailure
      ensures !documentFailed && result == Complete ==>
        Feed(cb, start, buffer[..n]) == Finished(Abs(), error, buffer[..n][processed..])
      ensures !done ==> result == Continue && !documentFailed && error == NoError
      ensures !done ==> from < processed || (old(state) == StData && state != StData)
      ensures done && result == Continue ==> Waits(processed, n)
    {
      hide Feed, Settle, Step, Line;
      processed, error := from, NoError;
      ghost var input, m := buffer[..n], Settle(Abs());
      if state.TakesLines() {
        var pos := FindNewline(from, n);
        SettledAsItIs(Abs());
        if pos >= n {
          return true, Continue, from, NoError;
        }
        SubSlice(buffer, 0, n, from, pos + 1);
        result, error := TakeLine(from, pos);
        processed := pos + 1;
        FeedSlice(cb, start, m, input, from, processed);
        if result == Complete {
          FinishedHere(start, input, processed);
        }
        done := result != Continue;
      } else if dataSize == 0 {
        SettledAtEnd(Abs());
        if chunked {
          state := StChunkTerm;
          SettledAsItIs(Abs());
          return false, Continue, from, NoError;
        }
        FinishedHere(start, input, processed);
        return true, Complete, from, NoError;
      } else if from == n {
        SettledAsItIs(Abs());
        return true, Continue, from, NoError;
      } else {
        result, processed, error := TakeData(from, n);
        SubSlice(buffer, 0, n, from, processed);
        FeedSlice(cb, start, m, input, from, processed);
        done := result != Continue;
      }
    }

    /** Nothing can be made of the input until there is more of it. */
    ghost predicate Waits(processed: nat, n: nat)
      requires processed <= n <= buffer.Length
      reads this, buffer
    {
      && Settle(Abs()) == Running(Abs(), "")
      && (if state.TakesLines() then '\n' !in buffer[processed..n] else processed == n)
    }

    method Process(n: nat) returns (result: ProcessResult, processed: nat, error: HttpError)
      requires n <= buffer.Length && !state.StComplete? && !documentFailed
      modifies this`state, this`chunked, this`dataSize, this`events, this`body, this`documentFailed, this`stalls
      ensures stalls == old(stalls) + if result == Block then 1 else 0
      ensures processed <= n && !state.StComplete?
      ensures documentFailed || result != Complete ==>
        Feed(cb, Settle(old(Abs())), buffer[..n][..processed]) == Settle(Abs())
      ensures documentFailed ==> result == Complete && error == StreamFailure
      ensures !documentFailed && result == Complete ==>
        Feed(cb, Settle(old(Abs())), buffer[..n]) == Finished(Abs(), error, buffer[..n][processed..])
      ensures result == Continue ==> Waits(processed, n)
    {
      var done := false;
      processed := 0;
      ghost var start := Settle(Abs());
      assert buffer[..n][..0] == "" && Feed(cb, start, "") == start;
      hide Feed, Settle, Waits;
      while true
        invariant processed <= n && !state.StComplete? && !documentFailed
        invariant Feed(cb, start, buffer[..n][..processed]) == Settle(Abs()) && stalls == old(stalls)
        decreases n - processed, if state == StData then 1 else 0
      {
        done, result, processed, error := Round(n, processed, start);
        if done {
          return;
        }
      }
    }

    lemma FinishedHere(start: Machine, input: string, processed: nat)
      requires processed <= |input|
      requires Feed(cb, start, input[..processed]).Finished?
      requires Feed(cb, start, input[..processed]).rest == ""
      ensures Feed(cb, start, input) == Feed(cb, start, input[..processed]).(rest := input[processed..])
    {
      assert input == input[..processed] + input[processed..];
      FeedConcat(cb, start, input[..processed], input[processed..]);
      FeedFinished(cb, Feed(cb, start, input[..processed]), input[processed..]);
      assert "" + input[processed..] == input[processed..];
    }

    /** The network stream answers a read however it likes. */
    method ReadStream(room: nat) returns (r: ReadResult)
      modifies this`answers
      ensures answers == old(answers) + [r]
      ensures r.ReadSuccess? ==> |r.data| <= room
    {
      r := *;
      if r.ReadSuccess? && |r.data| > room {
        r := ReadBlock;
      }
      answers := answers + [r];
    }

    /** The read lands behind what the buffer already holds. */
    method Append(data: string)
      requires buffer.Length == BUFFER_SIZE && len + |data| <= BUFFER_SIZE
      modifies buffer, this`len
      ensures len == old(len) + |data|
      ensures buffer[..len] == old(buffer[..len]) + data
    {
      var i := 0;
      while i < |data|
        invariant i <= |data| && len == old(len)
        invariant buffer[..len] == old(buffer[..len])
        invariant buffer[len..len + i] == data[..i]
      {
        buffer[len + i] := data[i];
        i := i + 1;
      }
      assert buffer[..len + i] == buffer[..len] + buffer[len..len + i];
      len := len + |data|;
    }

    /** `memmove` of what is left to the front of the buffer. */
    method Discard(processed: nat)
      requires buffer.Length == BUFFER_SIZE && processed <= len <= BUFFER_SIZE
      modifies buffer, this`len
      ensures len == old(len) - processed
      ensures buffer[..len] == old(buffer[..len])[processed..]
    {
      MoveToFront(buffer, processed, len);
      len := len - processed;
    }

    /** A body without a length may be ended by closing the connection. */
    predicate IsValidEndOfInput()
      reads this
    {
      state == StData && dataSize == SIZE_UNKNOWN
    }

    function HandleStreamClose(error: nat): HttpError
      reads this
    {
      if error == 0 then if IsValidEndOfInput() then NoError else Disconnected
      else if error == codes.accessDenied then Auth
      else if error == codes.certificateExpired then CertificateExpired
      else SocketError
    }

    /** Nothing but an unfinished line is left in the buffer. */
    ghost predicate Drained()
      reads this, buffer
    {
      && len <= buffer.Length
      && Feed(cb, Settle(FRESH), received) == Running(Abs(), buffer[..len])
      && (if state.TakesLines() then '\n' !in buffer[..len] else len == 0)
    }

    /** Reads once more behind the data already held. */
    method Fill() returns (r: ReadResult)
      requires Valid() && len < BUFFER_SIZE
      modifies buffer, this`len, this`received, this`answers
      ensures Valid() && old(received) <= received && answers == old(answers) + [r]
      ensures !r.ReadSuccess? ==> len == old(len) && received == old(received) && buffer[..] == old(buffer[..])
      ensures r.ReadSuccess? ==> received == old(received) + r.data
    {
      r := ReadStream(BUFFER_SIZE - len);
      if r.ReadSuccess? {
        FeedConcat(cb, Settle(FRESH), received, r.data);
        FeedConcat(cb, Settle(Abs()), buffer[..len], r.data);
        Append(r.data);
        received := received + r.data;
      }
    }

    /** Runs the parser over the buffer and moves what it left to the front. */
    method Pump() returns (result: ProcessResult, error: HttpError)
      requires Valid() && !documentFailed
      modifies buffer, this`len, this`state, this`chunked, this`dataSize, this`events, this`body,
               this`documentFailed, this`stalls
      ensures stalls == old(stalls) + if result == Block then 1 else 0
      ensures len <= buffer.Length && (documentFailed ==> result == Complete && error == StreamFailure)
      ensures result != Complete || documentFailed ==> Valid()
      ensures result == Continue ==> Drained()
      ensures result == Complete && !documentFailed ==>
        Feed(cb, Settle(FRESH), received) == Finished(Abs(), error, buffer[..len])
    {
      var processed;
      ghost var start, input := Settle(Abs()), buffer[..len];
      result, processed, error := Process(len);
      FeedSlice(cb, start, Feed(cb, start, input[..processed]), input, processed, |input|);
      assert input[..|input|] == input;
      assert buffer[processed..len] == input[processed..];
      Discard(processed);
      if result == Continue && state.TakesLines() {
        FeedPending(cb, Abs(), "", buffer[..len]);
        assert "" + buffer[..len] == buffer[..len];
      }
    }

    /** The stream's last answer was its end or an error, which means `error`: a clean end
        is none where a body of unknown length is being read, and only there. */
    ghost predicate EndMeans(error: HttpError)
      reads this
    {
      var atEnd := if state == StData && dataSize == SIZE_UNKNOWN then NoError else Disconnected;
      answers != []
      && match answers[|answers| - 1]
         case ReadEos => error == atEnd
         case ReadError(code) =>
           && (code == 0 ==> error == atEnd)
           && (code != 0 && code == codes.accessDenied ==> error == Auth)
           && (code !in {0, codes.accessDenied} && code == codes.certificateExpired ==> error == CertificateExpired)
           && (code !in {0, codes.accessDenied, codes.certificateExpired} ==> error == SocketError)
         case _ => false
    }

    method DoReceiveLoop() returns (complete: bool, error: HttpError, outcome: Outcome)
      requires Valid() && !documentFailed
      modifies this, buffer
      ensures old(received) <= received && (documentFailed <==> outcome == DocumentFailed)
      ensures complete <==> outcome in {MessageOver, StreamEnded, HeaderTooLong, DocumentFailed}
      ensures outcome != MessageOver ==> Valid()
      ensures outcome == MessageOver ==>
        len <= buffer.Length && Feed(cb, Settle(FRESH), received) == Finished(Abs(), error, buffer[..len])
      ensures outcome == Waiting || outcome == Starving ==> Drained()
      ensures outcome == HeaderTooLong ==>
        Drained() && error == Overflow && state.TakesLines() && len == BUFFER_SIZE
      ensures outcome == StreamEnded ==> EndMeans(error)
      // nothing is lost when the stream ends, unless it was called with text it had not looked at
      ensures outcome == StreamEnded && (old(Drained()) || |answers| > |old(answers)| + 1) ==> Drained()
      ensures stalls == old(stalls) + if outcome == Stalled then 1 else 0
      ensures outcome == DocumentFailed ==> error == StreamFailure
      ensures |old(answers)| <= |answers| <= |old(answers)| + MAX_READ_COUNT + 1
      ensures outcome == Waiting ==> |old(answers)| < |answers| && answers[|answers| - 1] == ReadBlock
      ensures outcome == Starving ==> |answers| >= |old(answers)| + MAX_READ_COUNT
    {
      hide Feed, Settle;
      error := NoError;
      var loopCount := 0;
      var processRequiresMoreData := false;
      while true
        invariant Valid() && !documentFailed && old(received) <= received
        invariant processRequiresMoreData ==> Drained()
        invariant loopCount <= MAX_READ_COUNT
        invariant |old(answers)| <= |answers| <= |old(answers)| + loopCount <= |answers| + 1
        invariant stalls == old(stalls)
        invariant if loopCount == 0 then old(Drained()) ==> Drained() else processRequiresMoreData
        decreases MAX_READ_COUNT - loopCount
      {
        if len < BUFFER_SIZE {
          var r := Fill();
          match r {
            case ReadSuccess(_) =>
            case ReadBlock =>
              if processRequiresMoreData {
                return false, error, Waiting;
              }
            case ReadEos =>
              return true, HandleStreamClose(0), StreamEnded;
            case ReadError(code) =>
              return true, HandleStreamClose(code), StreamEnded;
          }
        } else if processRequiresMoreData {
          return true, Overflow, HeaderTooLong;
        }
        var result;
        result, error := Pump();
        match result {
          case Continue =>
            processRequiresMoreData := true;
          case Block =>
            return false, error, Stalled;
          case Complete =>
            return true, error, if documentFailed then DocumentFailed else MessageOver;
        }
        loopCount := loopCount + 1;
        if loopCount > MAX_READ_COUNT {
          return false, error, Starving;
        }
      }
    }
  }

  /** Two receivers that have read the same stream and wait for more agree on
      everything: what was passed on, what state they are in, and what is unread. */
  lemma SameStreamSameState(r1: HttpReceiver, r2: HttpReceiver)
    requires r1.Drained() && r2.Drained() && r1.cb == r2.cb && r1.received == r2.received
    ensures r1.Abs() == r2.Abs() && r1.buffer[..r1.len] == r2.buffer[..r2.len]
  {
    assert Feed(r1.cb, Settle(FRESH), r1.received) == Feed(r2.cb, Settle(FRESH), r2.received);
  }
}
