/** The sending half of `HttpBase`: a serializer over a fixed buffer that packs
    the leader, the headers and the document, and that may be stopped by either
    stream at any point and resumed later. */
module HttpSending {
  import opened HttpText
  import opened Options
  import opened Sizes
  import opened Arrays

  const CHUNK_DIGITS: nat := 8
  const LAST_CHUNK := "0\r\n\r\n"

  datatype HeaderField = HeaderField(name: string, value: string) {
    function Render(): string {
      name + ": " + value + CRLF
    }

    /** A header that does not fit is dropped. */
    function OnWire(): string {
      if Fits() then Render() else ""
    }

    /** A header this long is never queued, however empty the buffer is. */
    predicate Fits() {
      |Render()| < BUFFER_SIZE - 3
    }
  }

  /** The value of the first header of that name, whatever its case. */
  function Lookup(headers: seq<HeaderField>, name: string): Option<string> {
    if headers == [] then None
    else if EqualsIgnoreCase(headers[0].name, name) then Some(headers[0].value)
    else Lookup(headers[1..], name)
  }

  /** What the caller hands to `send`. */
  datatype Message = Message(leader: string, headers: seq<HeaderField>, document: Option<string>) {
    /** The first transfer coding decides; its value must match to the letter. */
    predicate Chunked() {
      Lookup(headers, "Transfer-Encoding") == Some("chunked")
    }

    /** The leader and its line end are written by a bounded copy. */
    function Opening(): (s: string)
      ensures |s| <= BUFFER_SIZE - 1
    {
      var line := leader[..Min(|leader|, BUFFER_SIZE - 1)];
      line + CRLF[..Min(2, BUFFER_SIZE - 1 - |line|)]
    }

    /** So is the blank line after a message head without headers. */
    function Blank(): string {
      if headers == [] then CRLF[..Min(2, BUFFER_SIZE - 1 - |Opening()|)] else CRLF
    }
  }

  /** The message head, as far as the first `k` headers: those that fit, in order,
      and the blank line after the last. */
  function Head(m: Message, k: nat): string
    requires k <= |m.headers|
  {
    (if k == 0 then m.Opening() else Head(m, k - 1) + m.headers[k - 1].OnWire())
    + (if k == |m.headers| then m.Blank() else "")
  }

  function Concat(parts: seq<string>): string {
    if parts == [] then "" else Concat(parts[..|parts| - 1]) + parts[|parts| - 1]
  }

  /** One chunk: its size in eight hex digits, its data, and two line ends. */
  function Chunk(data: string): string {
    ToHex(|data|, CHUNK_DIGITS) + CRLF + data + CRLF
  }

  /** How a piece of the document goes on the wire. */
  function Piece(chunked: bool, data: string): string {
    if chunked then Chunk(data) else data
  }

  function Body(chunked: bool, parts: seq<string>): string {
    if parts == [] then "" else Body(chunked, parts[..|parts| - 1]) + Piece(chunked, parts[|parts| - 1])
  }

  /** How far the serializer has got: headers passed, pieces of the document taken,
      and whether the last chunk has been queued. */
  datatype Progress = Progress(headersPassed: nat, parts: seq<string>, lastChunk: bool)

  predicate Consistent(m: Message, p: Progress) {
    && p.headersPassed <= |m.headers|
    && (p.parts != [] || p.lastChunk ==> p.headersPassed == |m.headers|)
    && (p.lastChunk ==> m.Chunked())
    && (forall i :: 0 <= i < |p.parts| ==> 0 < |p.parts[i]| <= BUFFER_SIZE)
    && (match m.document
        case None => p.parts == [] && !p.lastChunk
        case Some(d) => Concat(p.parts) <= d && (p.lastChunk ==> Concat(p.parts) == d))
  }

  /** Every byte that has been queued so far, in order. */
  function Queued(m: Message, p: Progress): string
    requires p.headersPassed <= |m.headers|
  {
    Head(m, p.headersPassed) + Body(m.Chunked(), p.parts) + (if p.lastChunk then LAST_CHUNK else "")
  }

  lemma ConcatSnoc(parts: seq<string>, data: string)
    ensures Concat(parts + [data]) == Concat(parts) + data
  {
    assert (parts + [data])[..|parts|] == parts;
  }

  lemma BodySnoc(chunked: bool, parts: seq<string>, data: string)
    ensures Body(chunked, parts + [data]) == Body(chunked, parts) + Piece(chunked, data)
  {
    hide Piece;
    assert (parts + [data])[..|parts|] == parts;
  }

  /** The next piece of the document may be taken, and appends just itself. */
  lemma PieceTaken(m: Message, p: Progress, from: nat, count: nat)
    requires Consistent(m, p) && m.document.Some? && p.headersPassed == |m.headers| && !p.lastChunk
    requires 0 < count <= BUFFER_SIZE && from == |Concat(p.parts)| && from + count <= |m.document.value|
    ensures var data := m.document.value[from..from + count];
      var q := p.(parts := p.parts + [data]);
      && Consistent(m, q) && |Concat(q.parts)| == from + count
      && Queued(m, q) == Queued(m, p) + Piece(m.Chunked(), data)
  {
    hide Piece, Head, Body, Concat, Message.Chunked;
    var data := m.document.value[from..from + count];
    ConcatSnoc(p.parts, data);
    BodySnoc(m.Chunked(), p.parts, data);
    var head, body, piece := Head(m, p.headersPassed), Body(m.Chunked(), p.parts), Piece(m.Chunked(), data);
    assert head + body + "" == head + body && head + (body + piece) + "" == head + body + piece;
  }

  /** The end of a chunked document appends just the last chunk. */
  lemma LastTaken(m: Message, p: Progress)
    requires p.headersPassed == |m.headers| && !p.lastChunk
    ensures Queued(m, p.(lastChunk := true)) == Queued(m, p) + LAST_CHUNK
  {
    assert Queued(m, p) == Head(m, p.headersPassed) + Body(m.Chunked(), p.parts);
  }

  /** Before the document is begun only the head is queued. */
  lemma OnlyHead(m: Message, p: Progress)
    requires p.headersPassed <= |m.headers| && p.parts == [] && !p.lastChunk
    ensures Queued(m, p) == Head(m, p.headersPassed)
  {
  }

  /** The whole message has been queued. */
  predicate AllQueued(m: Message, p: Progress) {
    && p.headersPassed == |m.headers|
    && (m.document.Some? ==> Concat(p.parts) == m.document.value && p.lastChunk == m.Chunked())
  }

  datatype StreamResult = Success(count: nat) | Blocked | Ended | Failed

  /** How a stream answers, call by call; an answer that it could not give counts as
      `Blocked`. */
  type Script = nat -> StreamResult

  datatype Outcome =
    | Sent             // the message is on the wire
    | NetworkBlocked   // resumes when the network stream is writable
    | DocumentBlocked  // resumes when the document has more data
    | DocumentError
    | NetworkError
    | StillSpinning    // the source would go round its loop again

  /** The last of the answers that came after `before`. */
  predicate LastAnswer(before: seq<StreamResult>, after: seq<StreamResult>, r: StreamResult) {
    |before| < |after| && after[|after| - 1] == r
  }

  /** The fixed buffer of `HttpBase` and the stream behind it. */
  class SendBuffer {
    const data: array<char>
    const network: Script
    var len: nat
    /** What the network stream has answered, in order. */
    var answers: seq<StreamResult>

    /** Everything the network stream has accepted. */
    ghost var wire: string
    /** Everything that was ever queued. */
    ghost var queued: string

    /** Nothing is lost, repeated or reordered between the queue and the wire. */
    ghost predicate Valid()
      reads this, data
    {
      data.Length == BUFFER_SIZE && len <= BUFFER_SIZE && wire + data[..len] == queued
    }

    constructor (network: Script)
      ensures Valid() && fresh(data) && len == 0 && wire == queued == "" && answers == []
      ensures this.network == network
    {
      this.network := network;
      data := new char[BUFFER_SIZE](_ => '\0');
      len, wire, queued, answers := 0, "", "", [];
    }

    /** `memcpy` to an offset. */
    method Store(at: nat, text: string)
      requires at + |text| <= data.Length
      modifies data
      ensures data[at..at + |text|] == text
      ensures forall k :: 0 <= k < at || at + |text| <= k < data.Length ==> data[k] == old(data[k])
    {
      var i := 0;
      while i < |text|
        invariant i <= |text| && data[at..at + i] == text[..i]
        invariant forall k :: 0 <= k < at || at + i <= k < data.Length ==> data[k] == old(data[k])
      {
        data[at + i] := text[i];
        i := i + 1;
      }
    }

    /** Prints what fits of the text behind what is queued, without queuing it. */
    method Print(text: string, room: nat) returns (n: nat)
      requires Valid() && len + room <= data.Length
      modifies data
      ensures Valid() && n == Min(|text|, room)
      ensures data[len..len + n] == text[..n]
    {
      n := Min(|text|, room);
      Store(len, text[..n]);
      assert data[..len] == old(data[..len]);
    }

    /** Queues the `n` bytes that were printed last. */
    method Keep(n: nat)
      requires Valid() && len + n <= BUFFER_SIZE
      modifies this`len, this`queued
      ensures Valid() && len == old(len) + n
      ensures queued == old(queued) + data[old(len)..len]
    {
      assert data[..len + n] == data[..len] + data[len..len + n];
      queued := queued + data[len..len + n];
      len := len + n;
      assert wire + (data[..old(len)] + data[old(len)..len]) == queued;
    }

    method Append(text: string)
      requires Valid() && len + |text| <= BUFFER_SIZE
      modifies data, this`len, this`queued
      ensures Valid() && len == old(len) + |text|
      ensures queued == old(queued) + text
    {
      var n := Print(text, |text|);
      assert text[..n] == text;
      Keep(n);
    }

    /** A chunk is assembled around the data. */
    method AppendChunk(text: string)
      requires Valid() && len + CHUNK_DIGITS + 4 + |text| <= BUFFER_SIZE
      modifies data, this`len, this`queued
      ensures Valid() && len == old(len) + CHUNK_DIGITS + 4 + |text|
      ensures queued == old(queued) + Chunk(text)
    {
      Append(ToHex(|text|, CHUNK_DIGITS));
      Append(CRLF);
      Append(text);
      Append(CRLF);
      assert queued == old(queued) + Chunk(text);
    }

    /** The network stream takes what it likes; a success takes at least a byte. */
    method WriteStream() returns (r: StreamResult)
      modifies this`answers
      ensures r.Success? ==> 1 <= r.count <= len
      ensures !r.Ended? && answers == old(answers) + [r]
      ensures network(|old(answers)|) == Blocked ==> r == Blocked
    {
      r := network(|answers|);
      if r.Ended? || (r.Success? && !(1 <= r.count <= len)) {
        r := Blocked;
      }
      answers := answers + [r];
    }

    /** Writes out what the network stream takes, and moves the rest to the front. */
    method WriteOut() returns (r: StreamResult)
      requires Valid() && 0 < len
      modifies data, this`len, this`wire, this`answers
      ensures Valid() && old(wire) <= wire && !r.Ended? && answers == old(answers) + [r]
      ensures network(|old(answers)|) == Blocked ==> r == Blocked
      ensures if r.Success? then len < old(len) else len == old(len) && wire == old(wire)
    {
      r := WriteStream();
      if r.Success? {
        assert wire + data[..len] == wire + data[..r.count] + data[..len][r.count..];
        wire := wire + data[..r.count];
        Discard(r.count);
      }
    }

    /** `memmove` of what has not been written to the front of the buffer. */
    method Discard(written: nat)
      requires written <= len <= data.Length
      modifies data, this`len
      ensures len == old(len) - written && data[..len] == old(data[..len])[written..]
    {
      MoveToFront(data, written, len);
      len := len - written;
    }
  }

  class HttpSender {
    const message: Message
    const out: SendBuffer
    var header: nat          // the position of the header iterator
    var chunkData: bool
    var documentRead: nat    // how much of the document has been read
    const script: Script     // the answers of the document
    /** What the document has answered, in order. */
    var documentAnswers: seq<StreamResult>
    ghost var progress: Progress

    ghost predicate Valid()
      reads this, out, out.data
    {
      && out.Valid()
      && Consistent(message, progress)
      && header == progress.headersPassed
      && chunkData == (message.Chunked() && !progress.lastChunk)
      && documentRead == |Concat(progress.parts)|
      && out.queued == Queued(message, progress)
      && (message.document.None? ==> out.len < BUFFER_SIZE)
    }

    /** What is left to queue. */
    ghost function Unqueued(): nat
      reads this
    {
      var left := (if chunkData then 1 else 0)
        + (if message.document.Some? && documentRead <= |message.document.value|
           then |message.document.value| - documentRead else 0);
      if header <= |message.headers| then |message.headers| - header + left else left
    }

    /** Starts sending: the leader goes into the buffer, and the blank line too
        when there are no headers. */
    constructor (message: Message, network: Script, script: Script)
      ensures this.message == message && fresh(out) && fresh(out.data) && out.wire == ""
      ensures Valid() && progress == Progress(0, [], false)
      ensures out.network == network && this.script == script && out.answers == documentAnswers == []
    {
      this.message, this.script := message, script;
      var buffer := new SendBuffer(network);
      buffer.Append(message.Opening());
      if |message.headers| == 0 {
        buffer.Append(message.Blank());
      }
      out := buffer;
      header, documentRead := 0, 0;
      chunkData := message.Chunked();
      progress := Progress(0, [], false);
      documentAnswers := [];
      new;
      OnlyHead(message, progress);
    }

    /** The document gives what it likes, but a success gives at least a byte and
        only its end is reported as its end. */
    method ReadDocument(room: nat) returns (r: StreamResult)
      requires message.document.Some? && documentRead <= |message.document.value|
      modifies this`documentAnswers
      ensures documentAnswers == old(documentAnswers) + [r]
      ensures r.Success? ==> 1 <= r.count <= Min(room, |message.document.value| - documentRead)
      ensures r.Ended? ==> documentRead == |message.document.value|
    {
      r := script(|documentAnswers|);
      if (r.Success? && !(1 <= r.count <= Min(room, |message.document.value| - documentRead)))
        || (r.Ended? && documentRead != |message.document.value|) {
        r := Blocked;
      }
      documentAnswers := documentAnswers + [r];
    }

    /** What comes next does not fit into the buffer. */
    predicate NoRoom()
      reads this, out
    {
      if header < |message.headers| then out.len + |message.headers[header].Render()| >= BUFFER_SIZE - 3
      else message.document.Some? && out.len + (if chunkData then CHUNK_DIGITS + 4 else 0) >= BUFFER_SIZE
    }

    /** There is nothing to do but to write: the buffer is full, what comes next does not
        fit, or the document has just blocked or come to its end. */
    ghost predicate Packed(before: seq<StreamResult>)
      reads this, out
    {
      || out.len >= BUFFER_SIZE || NoRoom()
      || LastAnswer(before, documentAnswers, Blocked) || LastAnswer(before, documentAnswers, Ended)
    }

    lemma PackedSince(before: seq<StreamResult>, later: seq<StreamResult>)
      requires |before| <= |later| && Packed(later)
      ensures Packed(before)
    {
    }

    ghost predicate HeadQueued()
      reads this, out, out.data
    {
      && out.Valid() && header < |message.headers| && out.len < BUFFER_SIZE
      && out.queued == Head(message, header)
    }

    /** Prints the next header into what room there is, and keeps it if it fits; a
        header that does not fit into the empty buffer is passed over. */
    method QueueHeader() returns (sendRequired: bool)
      requires HeadQueued()
      modifies out`len, out`queued, out.data, this`header
      ensures sendRequired ==> HeadQueued() && header == old(header) && out.len == old(out.len) > 0
      ensures sendRequired ==> out.len + |message.headers[header].Render()| >= BUFFER_SIZE - 3
      ensures !sendRequired ==> header == old(header) + 1 && out.Valid() && old(out.len) <= out.len < BUFFER_SIZE - 3
      ensures !sendRequired ==> out.queued == Head(message, old(header)) + message.headers[old(header)].OnWire()
    {
      var h := message.headers[header];
      var n := out.Print(h.Render(), BUFFER_SIZE - out.len - 1);
      if out.len + n < BUFFER_SIZE - 3 {
        assert h.Render()[..n] == h.OnWire();
        out.Keep(n);
        header := header + 1;
        return false;
      } else if out.len == 0 {
        assert Head(message, header) + h.OnWire() == Head(message, header);
        header := header + 1;
        return false;
      }
      return true;
    }

    /** Queues header lines while they fit; true when the buffer must be written
        out before the next one. */
    method QueueHeaders() returns (sendRequired: bool)
      requires Valid() && header < |message.headers| && out.len < BUFFER_SIZE
      modifies out`len, out`queued, out.data, this`header, this`progress
      ensures Valid() && old(out.len) <= out.len < BUFFER_SIZE && old(header) <= header
      ensures sendRequired ==> header < |message.headers| && 0 < out.len && NoRoom()
      ensures !sendRequired ==> header == |message.headers|
      ensures progress == old(progress).(headersPassed := header)
    {
      hide HeaderField.OnWire, Body, Message.Chunked, Message.Opening, Queued;
      OnlyHead(message, progress);
      while true
        invariant HeadQueued() && old(header) <= header && progress == old(progress) && old(out.len) <= out.len
        decreases |message.headers| - header
      {
        var full := QueueHeader();
        if full {
          progress := progress.(headersPassed := header);
          OnlyHead(message, progress);
          return true;
        } else if header == |message.headers| {
          out.Append(CRLF);
          progress := progress.(headersPassed := header);
          OnlyHead(message, progress);
          return false;
        }
      }
    }

    method AppendPiece(data: string)
      requires out.Valid() && out.len + |data| + (if chunkData then CHUNK_DIGITS + 4 else 0) <= BUFFER_SIZE
      modifies out`len, out`queued, out.data
      ensures out.Valid() && old(out.len) + |data| <= out.len
      ensures out.queued == old(out.queued) + Piece(chunkData, data)
    {
      if chunkData {
        out.AppendChunk(data);
      } else {
        out.Append(data);
      }
    }

    /** Queues the next `count` bytes of the document. */
    method TakePiece(count: nat)
      requires Valid() && message.document.Some? && header == |message.headers| && !progress.lastChunk
      requires 0 < count <= |message.document.value| - documentRead
      requires out.len + count + (if chunkData then CHUNK_DIGITS + 4 else 0) <= BUFFER_SIZE
      modifies out`len, out`queued, out.data, this`documentRead, this`progress
      ensures Valid() && Unqueued() < old(Unqueued()) && old(out.len) < out.len
    {
      hide Piece, Queued, Concat, Message.Chunked;
      var data := message.document.value[documentRead..documentRead + count];
      PieceTaken(message, progress, documentRead, count);
      AppendPiece(data);
      documentRead := documentRead + count;
      progress := progress.(parts := progress.parts + [data]);
    }

    /** Tries to queue some of the document: a piece of it, wrapped as a chunk when
        the coding is chunked, or the last chunk at its end. */
    method QueueDocument() returns (r: StreamResult, sendRequired: bool)
      requires Valid() && message.document.Some? && header == |message.headers|
      modifies out`len, out`queued, out.data, this`chunkData, this`documentRead, this`progress, this`documentAnswers
      ensures Valid() && old(out.len) <= out.len
      ensures old(documentAnswers) <= documentAnswers
      ensures !r.Success? ==> documentAnswers == old(documentAnswers) + [r]
      ensures Unqueued() < old(Unqueued()) || (Unqueued() == old(Unqueued()) && out.len == old(out.len))
      ensures !sendRequired ==> r.Success? && Unqueued() < old(Unqueued())
      ensures r.Success? ==> 0 < out.len
      ensures r.Ended? ==> AllQueued(message, progress)
      ensures sendRequired && r.Success? ==> NoRoom()
    {
      var offset := if chunkData then out.len + CHUNK_DIGITS + 2 else out.len;
      var reserve := if chunkData then offset + 2 else offset;
      if reserve >= BUFFER_SIZE {
        return Success(0), true;
      }
      r := ReadDocument(BUFFER_SIZE - reserve);
      match r {
        case Success(count) =>
          TakePiece(count);
          return r, false;
        case Ended =>
          assert Concat(progress.parts) == message.document.value;
          if chunkData {
            LastTaken(message, progress);
            out.Append(LAST_CHUNK);
            chunkData := false;
            progress := progress.(lastChunk := true);
          }
          return r, true;
        case Blocked => return r, true;
        case Failed => return r, true;
      }
    }

    /** Packs as much as the buffer takes: headers first, then the document. */
    method QueueMore(full: bool) returns (r: StreamResult, sendRequired: bool)
      requires Valid() && (full ==> 0 < out.len) && (out.len < BUFFER_SIZE || full || header == |message.headers|)
      modifies out`len, out`queued, out.data, this`header, this`chunkData, this`documentRead, this`progress,
               this`documentAnswers
      ensures Valid() && old(out.len) <= out.len && (r.Ended? ==> AllQueued(message, progress))
      ensures old(documentAnswers) <= documentAnswers
      ensures !r.Success? ==> documentAnswers == old(documentAnswers) + [r]
      ensures !sendRequired || out.len == 0 ==> header == |message.headers|
      ensures Unqueued() < old(Unqueued()) || (Unqueued() == old(Unqueued()) && out.len == old(out.len))
      ensures !sendRequired && Unqueued() == old(Unqueued()) ==> message.document.None? && header == old(header)
      ensures header != old(header) ==> Unqueued() < old(Unqueued())
      ensures r.Failed? || r.Ended? ==> message.document.Some? && sendRequired
      ensures sendRequired && !full && r.Success? ==> NoRoom()
      ensures message.document.None? && old(header) == |message.headers| ==>
        sendRequired == full && out.len == old(out.len)
      ensures message.document.None? && sendRequired && !full ==> header < |message.headers|
      ensures out.len == 0 && message.document.Some? ==> !r.Success?
      ensures message.document.None? && header == old(header) && !sendRequired ==> out.queued == old(out.queued)
    {
      r, sendRequired := Success(0), full;
      if !sendRequired && header < |message.headers| {
        sendRequired := QueueHeaders();
      }
      if !sendRequired && message.document.Some? {
        r, sendRequired := QueueDocument();
      }
    }

    /** What one round of the loop came to: the loop is left, or it goes on, with
        progress made or with none. */
    method Round(full: bool) returns (left: Option<Outcome>, spun: bool)
      requires Valid() && (full ==> out.len >= BUFFER_SIZE)
      requires out.len < BUFFER_SIZE || full || header == |message.headers|
      modifies out, out.data, this`header, this`chunkData, this`documentRead, this`progress, this`documentAnswers
      ensures Valid() && old(out.wire) <= out.wire
      ensures old(out.answers) <= out.answers && old(documentAnswers) <= documentAnswers
      ensures |out.answers| <= |old(out.answers)| + 1 && (left == None ==> |out.answers| == |old(out.answers)| + 1)
      ensures out.network(|old(out.answers)|) == Blocked && |old(out.answers)| < |out.answers| ==>
        LastAnswer(old(out.answers), out.answers, Blocked)
      ensures LastAnswer(old(out.answers), out.answers, Blocked) ==> 0 < out.len
      ensures message.document.None? && old(header) == |message.headers| && !full && 0 < old(out.len) ==>
        (spun <==> LastAnswer(old(out.answers), out.answers, Blocked))
      ensures message.document.None? && !full && left == Some(NetworkBlocked) ==> header < |message.headers|
      ensures left == Some(Sent) ==> old(out.len) == 0 && out.answers == old(out.answers)
      ensures left == Some(NetworkBlocked) ==> out.answers == old(out.answers) + [Blocked]
      ensures left == Some(NetworkError) ==> out.answers == old(out.answers) + [Failed]
      ensures left == Some(DocumentBlocked) ==> documentAnswers == old(documentAnswers) + [Blocked]
      ensures left == Some(DocumentError) ==>
        message.document.Some? && documentAnswers == old(documentAnswers) + [Failed]
      ensures left == Some(Sent) ==> AllQueued(message, progress) && out.wire == Queued(message, progress)
      ensures left == Some(DocumentBlocked) ==> out.len == 0 && message.document.Some?
      ensures left == Some(NetworkBlocked) ==> 0 < out.len && Packed(old(documentAnswers))
      ensures left != Some(StillSpinning)
      ensures left == None ==> header == |message.headers| || out.len < BUFFER_SIZE
      ensures left == None ==>
        (|| Unqueued() < old(Unqueued())
         || (Unqueued() == old(Unqueued()) && (out.len < old(out.len) || (out.len == old(out.len) && spun))))
      ensures spun ==> left == None && message.document.None? && header == old(header) == |message.headers|
      ensures spun ==> LastAnswer(old(out.answers), out.answers, Blocked)
      ensures spun ==> 0 < out.len == old(out.len) && out.wire == old(out.wire) && out.queued == old(out.queued)
    {
      hide Queued, Consistent, Unqueued, Concat, Body, Head;
      var headerBefore := header;
      var r, sendRequired := QueueMore(full);
      if r.Failed? {
        return Some(DocumentError), false;
      }
      if out.len == 0 {
        assert out.wire + out.data[..out.len] == out.wire;
        return if r.Ended? || message.document.None? then Some(Sent) else Some(DocumentBlocked), false;
      }
      ghost var unqueued := Unqueued();
      var w := out.WriteOut();
      assert out.answers[|old(out.answers)|] == w;
      assert Unqueued() == unqueued;
      if w.Success? {
        return None, false;
      } else if w.Failed? {
        return Some(NetworkError), false;
      } else if sendRequired {
        return Some(NetworkBlocked), false;
      }
      return None, message.document.None? && header == headerBefore;
    }

    /** Packs and writes until a stream blocks, fails, or everything is sent.  Without a
        document, and with the head complete, a blocked network makes the source go round
        and round; `patience` bounds how often in a row that is followed here, and
        `StillSpinning` reports that the source would go on. */
    method FlushData(patience: nat) returns (outcome: Outcome)
      requires Valid()
      modifies out, out.data, this`header, this`chunkData, this`documentRead, this`progress, this`documentAnswers
      ensures Valid() && old(out.wire) <= out.wire
      ensures outcome == NetworkError ==> LastAnswer(old(out.answers), out.answers, Failed)
      ensures outcome == DocumentBlocked ==> LastAnswer(old(documentAnswers), documentAnswers, Blocked)
      ensures outcome == DocumentError ==> LastAnswer(old(documentAnswers), documentAnswers, Failed)
      ensures outcome == Sent ==> AllQueued(message, progress) && out.wire == Queued(message, progress)
      ensures outcome == DocumentBlocked ==> out.len == 0 && message.document.Some?
      ensures outcome == NetworkBlocked ==> 0 < out.len && LastAnswer(old(out.answers), out.answers, Blocked)
      // it does not wait for the network before as much is packed as can be
      ensures outcome == NetworkBlocked ==> Packed(old(documentAnswers))
      // without a document the network blocks either the head or the loop itself
      ensures message.document.None? && LastAnswer(old(out.answers), out.answers, Blocked) ==>
        outcome == if header == |message.headers| then StillSpinning else NetworkBlocked
      ensures outcome == StillSpinning ==>
        && message.document.None? && 0 < out.len && header == |message.headers|
        && LastAnswer(old(out.answers), out.answers, Blocked)
      // and while it blocks, nothing but the patience ends the loop
      ensures Spins(old(header), old(out.len)) && BlocksFrom(|old(out.answers)|, patience + 1) ==>
        && outcome == StillSpinning && |out.answers| == |old(out.answers)| + patience + 1
        && out.wire == old(out.wire) && out.len == old(out.len)
    {
      var sendRequired := out.len >= BUFFER_SIZE;
      var patienceLeft: nat := patience;
      ghost var stuck := Spins(header, out.len) && BlocksFrom(|out.answers|, patience + 1);
      hide Valid, SendBuffer.Valid, Queued, Consistent, Unqueued, Packed, NoRoom;
      while true
        invariant Valid() && old(out.wire) <= out.wire
        invariant sendRequired ==> out.len >= BUFFER_SIZE && message.document.Some?
        invariant |old(out.answers)| <= |out.answers| && |old(documentAnswers)| <= |documentAnswers|
        invariant out.len < BUFFER_SIZE || sendRequired || header == |message.headers|
        invariant patienceLeft <= patience
        invariant LastAnswer(old(out.answers), out.answers, Blocked) ==> 0 < out.len
        invariant stuck ==>
          && header == |message.headers| && out.len == old(out.len) && out.wire == old(out.wire)
          && |out.answers| == |old(out.answers)| + patience - patienceLeft
        decreases Unqueued(), out.len, patienceLeft
      {
        ghost var before := documentAnswers;
        var left, spun := Round(sendRequired);
        sendRequired := false;
        if left.Some? {
          if left.value == NetworkBlocked {
            PackedSince(old(documentAnswers), before);
          }
          return left.value;
        } else if spun {
          if patienceLeft == 0 {
            return StillSpinning;
          }
          patienceLeft := patienceLeft - 1;
        }
      }
    }

    /** The head is complete and waits to be written, and there is nothing else. */
    ghost predicate Spins(header: nat, len: nat) {
      message.document.None? && header == |message.headers| && 0 < len
    }

    /** The network blocks the next `n` times, counted from its answer `k`. */
    ghost predicate BlocksFrom(k: nat, n: nat) {
      forall i :: k <= i < k + n ==> out.network(i) == Blocked
    }
  }

  /** A request without headers and without a document, on a network that never takes
      anything: however long one waits, nothing is sent, and the loop has not ended. */
  method SpinsForEver(patience: nat) returns (sender: HttpSender, outcome: Outcome)
    ensures fresh(sender) && sender.message == Message("GET / HTTP/1.0", [], None)
    ensures outcome == StillSpinning && |sender.out.answers| == patience + 1
    ensures sender.out.wire == "" && sender.out.len > 0
  {
    sender := new HttpSender(Message("GET / HTTP/1.0", [], None), _ => Blocked, _ => Blocked);
    assert |sender.out.queued| > 0;
    outcome := sender.FlushData(patience);
  }
}
