# A model of the stateful core of libjingle's `talk/base`

This project models the protocols, codecs and resource managers of `talk/base` in Dafny
and proves what they promise over whole runs. A value-level specification (functions over
sequences and maps) stands beside every component; the classes and methods follow the
source's own loops and fields, and are proved to do what the specification says; lemmas
state what the specification is for.

| files | what they model |
|---|---|
| `HttpText`, `HttpParser`, `HttpReceiver` | the incremental HTTP parser and the receive loop over a 32K buffer |
| `HttpSender`, `HttpRoundTrip`, `HttpBodies` | the resumable serializer, what a parser makes of its output, and of what other programs send |
| `DiskCacheSpec`, `DiskCacheInvariants`, `DiskCacheRuns`, `DiskCacheVictim`, `DiskCacheEviction`, `DiskCacheHazards`, `DiskCache` | the disk cache: locks, accessors, sizes, eviction |
| `Base64`, `Base64Bits` | the encoder, the decoder in its 27 modes, and the bits that text stands for |
| `Words`, `Crc32` | CRC-32 by table, by bits, and as a polynomial remainder (section 8 of RFC 1952) |
| `LockFreeQueue` | the single-producer, single-consumer queue, step by step |
| `ByteOrder`, `PacketFraming` | length-prefixed packets over a TCP stream |
| `LinkedPtr` | ring-linked smart pointers in the heap |
| `AuthAttributes` | authentication headers: printing and parsing |
| `HttpClientSpec`, `HttpClientOutcome`, `HttpClientBound`, `HttpClient` | retries, redirects and proxy authentication |
| `IpPrefix` | truncating addresses and counting mask bits |
| `ByteBuffer` | the compacting byte buffer with read positions |
| `Options`, `Sizes`, `Arrays`, `Remainders` | an option type, machine sizes, `memmove`; facts about slices and remainders |

`dafny verify dfyconfig.toml` checks the project.

## What is assumed

- Streams, sockets, files, the pool, name lookups and the document are the environment. They
  answer every question in any way, except that a successful read gives, and a successful
  write or sink takes, at least one byte and no more than it was offered.
- `size_t` is 64 bits wide, and 32 bits wide in the lock-free queue, whose only supported
  processor is a 32-bit one. The sizes of the files in the cache together stay below 2^64;
  subtractions of sizes are modelled with wrap-around and shown not to wrap.
- The text of headers, leaders and challenges is ASCII without NUL.
- The application behind the HTTP parser (the parser of the leader, `sscanf` of a content
  length, the reply to the end of the headers) is a parameter: three functions that may
  answer anything.
- The steps of the queue are atomic and sequentially consistent.

## Where the code does not do what it says

Each of these is stated as a theorem, with the exact condition; that of the first is exact over
all ways of picking victims.

- `LockResource` may go on with an entry that its own call of `CheckLimit` has erased:
  `LockDanglesIff`, and reached from the empty cache in `LockDanglesInARun`.
- `CheckLimit` reads through the end iterator when the first idle entry is the last one:
  `VictimIs`, and reached from the empty cache in `ReadsPastEndInARun`.
- `CheckLimit` may pick an entry that is not idle, and then fails although another is:
  `VictimIs` and `SourceOutcome`, and reached from the empty cache in `BusyVictimInARun`.
- A second writer of a stream makes sizes wrong from any state: `SecondWriterIff`.
- The length check of `Send` admits packets of 65536 to 65538 bytes, whose length does not
  fit the two bytes in front of them: `FrameRoundTrip`. The assertion in
  `AppendToOutBuffer` stops them: the contract of `Send`.
- The queue is safe across wrap-around of its counters only for capacities that divide 2^32:
  `SafeForEverIff`. `ClearAndResizeUnsafe` accepts any capacity.
- In `DO_PARSE_WHITE` with `DO_PAD_YES`, whitespace behind a whole number of quanta makes
  decoding fail: `WhiteIgnoresSpaces`.
- `CountIPMaskBits` ignores the words after the first one of an IPv6 mask that is not all
  ones: `V6CountIsLeastIff`.
- `flush_data` spins while the network blocks when there is no document to read: the
  contract of `FlushData`, and `SpinsForEver`.
- In `DO_PARSE_ANY` what is ignored still counts for the verdict when padding is required, or
  when one of two pads is missing and the whole buffer is to be used: `AnyIgnoresTheRest`.
- Names of authentication attributes may end in equal signs but not contain them elsewhere:
  `ReadsBackIff`.
- A message whose headers say "chunked" but that has no document is sent without a last
  chunk, and the other end waits for ever: `DeliveredIff`.
- A leader that does not fit the buffer goes out without its line end, or without the blank
  line behind it: `DeliveredIff` and `LongLeaderIsLost`.
- A stream that ends cleanly while received text waits in the buffer loses that text without
  an error: `LostAtClosingIff`.
- A comma behind a space is read as an attribute: `LateCommaRead`.
- A header whose name or value holds a newline, a name with a colon, or a value with
  whitespace at an end is sent as something else: `HeaderSurvivesIff`.
- The sender takes "Chunked", a second Transfer-Encoding header, or one that it drops because
  it is too long, otherwise than the parser does: `CodingAgreedIff`.

## Model

| member | source | states |
|---|---|---|
| `HttpText.HexRoundTrip` | talk/base/httpbase.cc:196-204 | a chunk size printed in hexadecimal with any width is read back by `strtoul` as the same number, and the read consumes the whole line, for every size below the parser's "unknown" value |
| `HttpText.HexDigitsRead` | talk/base/httpbase.cc:198-199 | `strtoul` reads any row of hexadecimal digits, in either case and with leading zeros, as its value, and stops at the largest number there is |
| `HttpParsing.FeedLine` | talk/base/httpbase.cc:91-110 | a whole line, fed to a state that takes lines, has exactly the effect of `ProcessLine` on the line without its trailing whitespace |
| `HttpParsing.FeedData` | talk/base/httpbase.cc:117-138 | data that fits the rest of a body or chunk is appended to the body and counted off, whether it comes byte by byte or at once |
| `HttpReceiving.HttpReceiver.ProcessLine` | talk/base/httpbase.cc:144-233 | the branches of the line handler (leader, headers with Content-Length and Transfer-Encoding, chunk size, terminator, trailers) leave the fields, and return the result and error, that the specification of a line prescribes |
| `HttpReceiving.HttpReceiver.Process` | talk/base/httpbase.cc:79-142 | segmentation independence, one buffer at a time: the loop leaves the parser where feeding the consumed bytes one by one would leave it; at `PR_CONTINUE` only an unfinished line is left and at `PR_COMPLETE` exactly the bytes after the message; it never reads past the input and it terminates |
| `HttpReceiving.HttpReceiver.DoReceiveLoop` | talk/base/httpbase.cc:495-593 | over any pattern of reads: the parser and the bytes still buffered together always stand for the whole stream read so far; overflow is reported only when one unfinished line fills the 32K buffer; a clean end of the stream is no error exactly while a body of unknown length is read, and disconnected otherwise, and an error means what its code says; it stalls exactly when the owner or the document interrupts it; it reads at most 21 times, and gives up for starvation not before the 20th |
| `HttpReceiving.SameStreamSameState` | talk/base/httpbase.cc:514-593 | segmentation independence, over all reads: two receivers that have drained the same stream, however it was cut, hold the same state, events, body and buffered line |
| `HttpSending.SendBuffer.AppendChunk` | talk/base/httpbase.cc:629-662 | a chunk goes into the buffer as its size in eight hexadecimal digits, a line end, the data and a line end |
| `HttpSending.SendBuffer.Discard` | talk/base/httpbase.cc:702-706 | after a partial write the buffer holds exactly the bytes that were not written |
| `HttpSending.HttpSender.QueueHeaders` | talk/base/httpbase.cc:723-745 | headers are queued in order, one that cannot fit an empty buffer is skipped and only such a one, and the blank line follows the last exactly once; it asks for a write when the next header does not fit |
| `HttpSending.HttpSender.QueueDocument` | talk/base/httpbase.cc:626-688 | one read of the document adds one piece of the body, or the last chunk at its end (which always fits), or nothing when the stream blocks or the buffer is full |
| `HttpSending.HttpSender.FlushData` | talk/base/httpbase.cc:603-721 | bytes written plus bytes buffered are at every return a prefix of the message as it should go out, for every pattern of blocked and partial writes and of document reads; `Sent` means all of it is on the wire; it waits for the network only when the buffer is full, what comes next does not fit, or the document has blocked or ended; every other outcome is the last answer of the stream it names; with a document the loop terminates; without one it goes on spinning exactly when the network blocked last and the head is complete, and as long as the network blocks it does nothing else |
| `HttpSending.HttpSender.Round` | talk/base/httpbase.cc:611-718 | one round without a document, with the head complete and some of it unsent, leaves everything as it was and goes on if and only if the network blocks |
| `HttpSending.SpinsForEver` | talk/base/httpbase.cc:707-711 | a request without headers or document, on a network that never takes anything: however many rounds one waits, nothing is sent and the loop has not ended |
| `HttpSending.HttpSender.constructor` | talk/base/httpbase.cc:418-453 | sending starts with the leader line in the buffer, chunked if and only if the first Transfer-Encoding header says "chunked", and with the blank line too when there are no headers |
| `HttpRoundTrip.ChunkedBodyRoundTrip` | talk/base/httpbase.cc:651-673 | any sequence of non-empty chunks and the last chunk, followed by any text, delivers the concatenated data and ends the message with no error, leaving exactly the text that follows |
| `HttpRoundTrip.HeaderSurvivesIff` | talk/base/httpbase.cc:727-733 | any header at all, as it is rendered, is passed on as itself, and the parser goes on, if and only if its name has no colon, newline or NUL, its value no newline and no whitespace at either end, and, for the two headers that are acted on, the value makes sense |
| `HttpRoundTrip.FeedIsPassable` | talk/base/httpbase.cc:91-163 | whatever stream it is fed, a parser passes on no leader with a newline or whitespace at its end, and no header that is not well-formed in that sense |
| `HttpRoundTrip.FeedHead` | talk/base/httpbase.cc:443-450 | the head of a message, as it is sent, takes the parser to the state after its leader, those of its headers that fit the buffer, in order, and the blank line |
| `HttpRoundTrip.BlankLineTaken` | talk/base/httpbase.cc:183-194 | the blank line behind the head: the owner is told whether the last Transfer-Encoding says chunked and what length the last Content-Length announces; its reply sets the length, refuses the head, or interrupts the parser |
| `HttpRoundTrip.LengthAnnounced` | talk/base/httpbase.cc:162-171 | the length that the owner is told is the number in the last of the Content-Length headers that were sent, and unknown when there is none |
| `HttpRoundTrip.CodingAgreedIff` | talk/base/httpbase.cc:172-182 | sender and parser agree on the coding if and only if the first Transfer-Encoding header, sent or dropped, is "chunked" to the letter exactly when the last one that is sent is "chunked" in any case |
| `HttpRoundTrip.MessageRoundTrip` | talk/base/httpbase.cc:603-721 | a deliverable message, with a document or without, chunked or of announced length, however it was cut up while sending, is parsed into its leader, those of its headers that fit the buffer, in order, and its document; the parser stops exactly at its end |
| `HttpRoundTrip.DeliveredIff` | talk/base/httpbase.cc:603-721 | any message whatever arrives as it was meant (leader, the headers that fit the buffer, document, no error, nothing left over) if and only if it is deliverable: the text keeps to its lines, the leader fits the buffer, leader, lengths and codings make sense to the parser, its owner accepts the head, a body taken as chunks was sent as chunks and has a document to end it, and any other has the announced length and was not cut into chunks; a chunked message without a document leaves the parser waiting for its first chunk |
| `HttpRoundTrip.DeliverableByLength` | talk/base/httpbase.cc:162-171 | with an owner that leaves the length alone, a message that is not chunked is deliverable exactly when its last Content-Length announces the length of its document |
| `HttpRoundTrip.LongLeaderIsLost` | talk/base/httpbase.cc:443-450 | a leader that the bounded copies cut short, or whose blank line they cut, never arrives as it was meant, whatever headers and document follow |
| `HttpRoundTrip.EndToEnd` | talk/base/httpbase.cc:514-721 | for any message whatever: a receiver object that has read what a sender object has sent, and reports the end, holds the message as it was meant, with no error and an empty buffer, exactly when it is deliverable, and then it cannot still be waiting |
| `HttpBodies.HeaderLineSplits` | talk/base/httpbase.cc:150-161 | a header line is split at its first colon, with any amount of space behind it |
| `HttpBodies.NoColonIsRefused` | talk/base/httpbase.cc:151-155 | a line among the headers without a colon ends the message with a protocol error |
| `HttpBodies.AnyChunk` | talk/base/httpbase.cc:196-220 | a chunk of any form (size in either case, with leading zeros, spaces at the ends of its lines, bare line ends) delivers its data |
| `HttpBodies.BrokenSize` | talk/base/httpbase.cc:196-210 | a chunk size ends the message with a protocol error if and only if it is blank or is not a number that takes up the whole line |
| `HttpBodies.BrokenEnd` | talk/base/httpbase.cc:212-219 | anything but a blank line behind the data of a chunk is a protocol error |
| `HttpBodies.TrailersSkipped` | talk/base/httpbase.cc:221-226 | any number of trailer lines are skipped, whatever they say, and a blank line ends the message without an error and with what follows untouched |
| `HttpBodies.OpenBody` | talk/base/httpbase.cc:111-138 | behind a head without a length or chunks, everything is the body |
| `HttpBodies.EndedByClosing` | talk/base/httpbase.cc:495-549 | a receiver of such a message, when the stream comes to a clean end, reports no error and holds exactly what came behind the head |
| `HttpBodies.LostAtClosingIff` | talk/base/httpbase.cc:532-549 | called with text in its buffer that it has not looked at, it reads first; a clean end is then no error either, and exactly that text is lost |
| `DiskCacheInvariants.CheckLimitEvictsIdle` | talk/base/diskcache.cc:229-264 | whichever victim is picked, and whether or not files can be deleted: only idle unlocked entries and their files go, everything else stays as it is, and success means the total is within the limit |
| `DiskCacheInvariants.DeleteKeepsBooks` | talk/base/diskcache.cc:203-227 | deleting an entry with its files and its size keeps the books; it succeeds exactly when the entry is absent or idle |
| `DiskCacheInvariants.CheckLimitKeepsBooks` | talk/base/diskcache.cc:229-264 | eviction keeps sizes, totals and files in agreement, and keeps readers and writers apart |
| `DiskCacheInvariants.SumWithout` | talk/base/diskcache.cc:229-237 | the sum over the map does not depend on the order in which entries are taken |
| `DiskCacheRuns.LockKeepsExclusion` | talk/base/diskcache.cc:114-126 | locking keeps readers and writers apart, unless it would be left with an erased entry |
| `DiskCacheRuns.UnlockKeepsExclusion` | talk/base/diskcache.cc:156-169 | unlocking with writers open waits for them; without, it unlocks and evicts; readers and writers stay apart |
| `DiskCacheRuns.ReleaseKeepsExclusion` | talk/base/diskcache.cc:331-360 | closing a stream always finds its entry, and the last writer of an unlocking entry unlocks it |
| `DiskCacheRuns.PreviousSizeCounted` | talk/base/diskcache.cc:133-139 | the assertion in `WriteResource` holds: a file about to be truncated is part of its entry's size when no one else writes it |
| `DiskCacheRuns.WriteKeepsBooks` | talk/base/diskcache.cc:128-154 | opening a stream for writing truncates its file and takes its old size out of the entry and of the total, keeping the books |
| `DiskCacheRuns.ReleaseKeepsBooks` | talk/base/diskcache.cc:331-360 | closing a written stream puts its new size back into the entry and the total, keeping the books |
| `DiskCacheRuns.NoUnderflow` | talk/base/diskcache.cc:148-149 | none of the `size_t` subtractions in the file can wrap around in any state in which the totals are right, undeletable files and several writers included: what is taken from a total or an entry is part of it |
| `DiskCacheRuns.AccessorsAreStreams` | talk/base/diskcache.cc:80-82 | in any such state the total of accessors is the number of open streams, so the destructor's assertion holds exactly when none is open |
| `DiskCacheRuns.EveryRunTotals` | talk/base/diskcache.cc:229-237 | in every state that any run reaches, even when deletions fail and writers share a file: both totals are the sums over the map, as the assertion in `CheckLimit` demands, and the total of accessors is the number of open streams |
| `DiskCacheRuns.EveryRunExcludes` | talk/base/diskcache.cc:114-186 | in every state that any run reaches: an unlocked entry has only readers open, a locked or unlocking one only writers, an unlocking one has at least one, counts are exact, and the entry of an open stream is still in the cache; even when deletions fail and writers share a file |
| `DiskCacheRuns.EveryRunBalances` | talk/base/diskcache.cc:203-227 | in every state that a run without a second writer of one file reaches (deletions succeeding), each entry's size is the sum of the sizes of its files not being written, no other files exist, and both totals are the sums over the map |
| `DiskCacheHazards.LockDanglesIff` | talk/base/diskcache.cc:114-126 | some choice of victims makes `LockResource` go on with an erased entry if and only if the cache is over its limit, the entry is new or idle, and the entries that are not idle fit the limit; with the source's own scans, which are one choice, this is necessary but not sufficient |
| `DiskCacheVictims.VictimIs` | talk/base/diskcache.cc:242-257 | the two scans of `CheckLimit` find no victim exactly when no entry is idle, read through the end iterator exactly when the first idle entry is the last of the map, and pick a given entry exactly when it is the least recently modified from the first idle one on, idle or not; of several such the one behind the first idle one, and otherwise the first |
| `DiskCacheEvictions.SourceOutcome` | talk/base/diskcache.cc:229-264 | when files can be deleted, `CheckLimit` with these scans ends with the total within the limit, or with no entry idle, or by reading through the end iterator, the last entry alone being idle, or by failing to delete an entry that is not idle although another is; which of the four is decided by the state it ends in, in both directions |
| `DiskCacheEvictions.SourceIsAChoice` | talk/base/diskcache.cc:229-264 | unless it reads through the end iterator, `CheckLimit` with the source's scans is one of the ways of evicting over which the invariants are proved |
| `DiskCacheEvictions.SourceEvictsIdle` | talk/base/diskcache.cc:229-264 | even when it reads through the end iterator or fails on the way: only idle entries and their files have gone, and exclusion, totals and books are kept |
| `DiskCacheEvictions.EvictsInTurn` | talk/base/diskcache.cc:241-262 | every state on the way differs from the one before by the eviction of the one entry that the scans choose, and only while there is no room: nothing is evicted beyond need |
| `DiskCacheVictims.FindVictim` | talk/base/diskcache.cc:242-257 | the two loops, as the source writes them, find that victim |
| `DiskCacheHazards.LockDanglesInARun` | talk/base/diskcache.cc:114-126 | the failure is reached with the source's own victims: a legal run from the empty cache leads to a state in which locking an idle entry goes on with the erased entry |
| `DiskCacheHazards.BusyVictimInARun` | talk/base/diskcache.cc:252-262 | in the same state, had both entries been stamped in the same second, the scan picks the locked one and eviction fails, although the other is idle and evicting it would make room |
| `DiskCacheHazards.ReadsPastEndInARun` | talk/base/diskcache.cc:252-257 | a legal run from the empty cache stores one resource larger than the cache; when it is unlocked the scan reads through the end iterator |
| `DiskCacheHazards.SecondWriterIff` | talk/base/diskcache.cc:128-154 | from every state with right books: opening a stream of a locked resource for writing leaves the sizes right for good, over every legal continuation without another second writer, if and only if no one is writing it |
| `DiskCacheHazards.SecondWriterBreaksSizes` | talk/base/diskcache.cc:128-154 | the continuation that shows it: fill the file with one byte more than it had and close both writers |
| `DiskCacheHazards.SecondWriterCountsTwice` | talk/base/diskcache.cc:128-154 | a legal run from the empty cache with two writers of one stream ends with an idle cache whose total is twice the size of its only file |
| `DiskCaching.DiskCache.DeleteResource` | talk/base/diskcache.cc:203-227 | the loop over the streams deletes every file that can be deleted, reports whether all could, and drops the entry either way; exclusion, totals and books are kept |
| `DiskCaching.DiskCache.CheckLimit` | talk/base/diskcache.cc:229-264 | the loop with the source's two scans over the map and the stamps: it stops as the specification of the scans says, reading through the end iterator included; only idle entries and their files go, success means that the total is within the limit, exclusion, totals and books are kept, and the loop terminates |
| `DiskCaching.DiskCache.LockResource` | talk/base/diskcache.cc:114-126 | a lock is given exactly to a resource that no one reads and no one else holds, if there is room, or if eviction has made room without evicting the resource itself; nothing else changes but what is evicted; exclusion, totals and books are kept; it is never left with an erased entry unless `MayDangle`; a new entry is stamped |
| `DiskCaching.DiskCache.WriteResource` | talk/base/diskcache.cc:128-154 | opens exactly on a locked resource, else changes nothing; the file is then empty and open for writing, its old size is gone from the entry and the total, and exclusion, totals and, unless it is a second writer, books are kept |
| `DiskCaching.DiskCache.UnlockResource` | talk/base/diskcache.cc:156-169 | unlocks exactly a locked resource, else changes nothing; with writers open only the lock state changes, to wait for them; without, the resource is stamped and unlocked and stays in the cache if there is room; exclusion, totals and books are kept |
| `DiskCaching.DiskCache.ReadResource` | talk/base/diskcache.cc:171-186 | opens exactly an existing stream of an unlocked resource, else changes nothing; an open reader makes the resource busy, so that it is not locked, deleted or evicted; exclusion, totals and books are kept |
| `DiskCaching.DiskCache.ReleaseResource` | talk/base/diskcache.cc:331-360 | the entry is always found; it has one accessor less and, after a writer, the size of the file more; the last writer out stamps and unlocks an entry that waited; exclusion, totals and books are kept |
| `Base64.EncodeFromArray` | talk/base/base64.cc:99-136 | the index loop produces the encoding of the data, group by group |
| `Base64.EncodeLength` | talk/base/base64.cc:102-102 | the encoding has the length that the result is sized to, four for every three bytes begun |
| `Base64.GetNextQuantum` | talk/base/base64.cc:138-190 | the scan of one quantum, in all parsing modes, with its padding and its rollback of illegal padding, and zeros in the unused part of the buffer |
| `Base64.DecodeFromArray` | talk/base/base64.cc:203-257 | success, bytes and number of characters used are those of the specification, for all 27 flag combinations; the loop terminates |
| `Base64Bits.DecodesLiterally` | talk/base/base64.cc:203-257 | in strict mode any text, and in the other modes any text without characters to ignore, is decoded to the bits that its leading alphabet characters stand for, six each, as far as they make up bytes; how much is used, and the verdict, from how many there are, the bits left over and the pads behind them, for all flags |
| `Base64Bits.WhiteDecodesBits` | talk/base/base64.cc:149-152 | with `DO_PARSE_WHITE` the bits are those of the leading alphabet characters of the text without its whitespace |
| `Base64Bits.AnyDecodesBits` | talk/base/base64.cc:145-172 | with `DO_PARSE_ANY` the bits are those of all the alphabet characters, in order |
| `Base64Bits.EncodedIsDecoded` | talk/base/base64.cc:99-257 | whatever the flags, all 27 combinations, decoding an encoding gives back the data |
| `Base64.TableIsAlphabet` | talk/base/base64.cc:33-36 | the table is the alphabet in its order |
| `Base64.StrictDecodesEncoding` | talk/base/base64.cc:99-257 | strict decoding of an encoding succeeds, returns the data and uses all characters |
| `Base64.StrictAcceptsOnlyEncodings` | talk/base/base64.cc:138-257 | whatever strict decoding accepts is the encoding of what it returns |
| `Base64.StrictIsInverse` | talk/base/base64.cc:99-257 | strict decoding succeeds with some bytes exactly when the text is the encoding of those bytes |
| `Base64.WhiteIgnoresSpaces` | talk/base/base64.cc:149-152 | with `DO_PARSE_WHITE` the bytes are those of the text without its whitespace, always; success agrees too, except in the one stated case (padding required, and a whole number of quanta followed by whitespace only) |
| `Base64.AnyIgnoresTheRest` | talk/base/base64.cc:145-172 | with `DO_PARSE_ANY` the bytes are those of the alphabet characters alone, always; success agrees if and only if the rest does not matter, which depends on how many pads, or whether anything, comes behind the last of them |
| `Base64.AnyVerdicts` | talk/base/base64.cc:224-252 | when the loop succeeds and when it comes to the end of the buffer in that mode, from the number of alphabet characters, the spare bits and the pads behind them |
| `Crc32.BytewiseIsBitwise` | talk/base/crc32.cc:57-66 | the byte-wise update equals feeding the message bit by bit through the shift register, for every start and message |
| `Crc32.ChecksumIsRemainder` | talk/base/crc32.cc:36-66 | the checksum is the remainder of the message, with its first 32 bits complemented by the start value, by long division of polynomials by the generator of RFC 1952 |
| `Crc32.PolynomialIsGenerator` | talk/base/crc32.cc:36-38 | the constant, read in reverse, is the generator polynomial of degree 32 |
| `Crc32.UpdatedConcat` | talk/base/crc32.cc:57-66 | updating over two buffers in turn is updating over their concatenation |
| `Crc32.StepInjective` | talk/base/crc32.cc:46-52 | one step of the register loses no information |
| `Crc32.FedAtOnce` | talk/base/crc32.cc:62-64 | feeding up to 32 bits one by one is adding them to the register and shifting as often |
| `Crc32.BurstDetected` | talk/base/crc32.cc:57-66 | two messages of equal length that differ, and only within 32 consecutive bits, have different checksums from the same start |
| `Crc32.FourBytesDetected` | talk/base/crc32.cc:57-66 | two messages that differ only within four consecutive bytes have different checksums from the same start |
| `Crc32.LastEntryNonzero` | talk/base/crc32.cc:41-43 | the last table entry is not zero, so it is a sound test for a table that is filled |
| `Crc32.Crc32Table.EnsureInited` | talk/base/crc32.cc:41-55 | the table is filled with the results of eight division steps, once |
| `Crc32.Crc32Table.UpdateCrc32` | talk/base/crc32.cc:57-66 | the table loop computes the specified checksum |
| `LockFreeQueue.StepKeepsInv` | talk/base/atomicops.h:92-134 | every atomic step of either thread keeps the invariant of counters, slots and threads |
| `LockFreeQueue.EveryRunSafe` | talk/base/atomicops.h:92-134 | under every interleaving, and across wrap-around of both 32-bit counters when the capacity divides 2^32 (else for fewer than 2^32 pushes), the values popped are a prefix of those pushed, no slot is overwritten before it is read, and the size stays within the capacity |
| `LockFreeQueue.ChecksExact` | talk/base/atomicops.h:145-151 | the wrapped comparisons are exact: a push is refused only by a full queue and a pop only by an empty one |
| `LockFreeQueue.WrapAroundOverwrites` | talk/base/atomicops.h:101-101 | a run that pushes and pops 2^32 values in a queue whose capacity does not divide 2^32 breaks the queue |
| `LockFreeQueue.SafeForEverIff` | talk/base/atomicops.h:92-151 | all runs are safe if and only if the capacity divides 2^32 |
| `LockFreeQueue.FixedSizeLockFreeQueue.PushBack` | talk/base/atomicops.h:92-107 | pushes when there is room, and says so; otherwise changes nothing |
| `LockFreeQueue.FixedSizeLockFreeQueue.PeekFront` | talk/base/atomicops.h:112-123 | returns the oldest value in the queue, or nothing when it is empty |
| `LockFreeQueue.FixedSizeLockFreeQueue.PopFront` | talk/base/atomicops.h:128-134 | returns the oldest value in the queue and removes it |
| `PacketFraming.UnframeConcat` | talk/base/asynctcpsocket.cc:292-310 | packets are put together the same way however the stream is cut |
| `PacketFraming.FrameRoundTrip` | talk/base/asynctcpsocket.cc:267-290 | among the packets that the length check of `Send` admits, those of at most 65535 bytes, and no others, are put together again from their frame |
| `PacketFraming.FrameBytes` | talk/base/asynctcpsocket.cc:277-279 | a frame is the high byte of the length, its low byte, and the packet |
| `PacketFraming.FramesRoundTrip` | talk/base/asynctcpsocket.cc:292-310 | a sequence of frames gives back its packets in order, and what follows them |
| `PacketFraming.AsyncTcpSocket.Send` | talk/base/asynctcpsocket.cc:267-290 | a packet is dropped whole (too long, buffer busy, or no progress), stopped by the assertion in `AppendToOutBuffer` (exactly those of 65536 to 65538 bytes that meet an empty buffer), or its frame goes out whole; what was sent plus the out buffer is always the frames of the packets not dropped |
| `PacketFraming.AsyncTcpSocket.FlushOutBuffer` | talk/base/asynctcpsocket.cc:168-183 | what the socket takes leaves the front of the out buffer; no byte is lost or repeated |
| `PacketFraming.AsyncTcpSocket.ProcessInput` | talk/base/asynctcpsocket.cc:292-310 | signals exactly the whole packets at the front of the input and leaves the rest at the front of the buffer |
| `PacketFraming.AsyncTcpSocket.OnReadEvent` | talk/base/asynctcpsocket.cc:213-230 | after every read the leftover is a proper prefix of one frame, there is room for the next read, and the overflow branch is never reached |
| `PacketFraming.EndToEnd` | talk/base/asynctcpsocket.cc:267-310 | a receiver that has read any part of what a sender has sent has delivered a prefix of the packets not dropped, and all of them once it has read everything |
| `LinkedPtr.Handle.Acquire` | talk/base/linked_ptr.h:99-110 | in the heap: the handle joins the ring of `r`, right behind it |
| `LinkedPtr.Handle.Release` | talk/base/linked_ptr.h:127-136 | in the heap: the last handle of a ring deletes the pointee, any other leaves a well-formed ring behind |
| `LinkedPtr.Copy` | talk/base/linked_ptr.h:64-65 | copying a handle keeps all rings well formed and disjoint, in the heap as in the books |
| `LinkedPtr.Assign` | talk/base/linked_ptr.h:66-73 | assigning, also to itself and within one ring, keeps all rings; the pointee left behind is deleted exactly if this was its last handle |
| `LinkedPtr.Destroy` | talk/base/linked_ptr.h:62-63 | destroying a handle keeps the rings of all others |
| `LinkedPtr.RunSound` | talk/base/linked_ptr.h:60-73 | in every state of every run: rings are disjoint and list each handle once, each pointee that lives has one ring, and a pointer that was wrapped is either held or deleted |
| `LinkedPtr.EveryRunDeletesOnce` | talk/base/linked_ptr.h:60-73 | at every point of every run: what the program has wrapped has not been deleted while a handle holds it, and has been deleted exactly once when none does |
| `HttpClientBound.RequestsBounded` | talk/base/httpclient.cc:727-825 | from a reset client, one `start` asks the pool for at most 2*(5+1)*(retries+1) streams before it completes, whatever the servers, proxies, lookups and the pool do |
| `HttpClientBound.BoundIsMet` | talk/base/httpclient.cc:727-825 | for every number of retries there is a run that asks for exactly that many |
| `HttpClientBound.ConnectWithinBudget` | talk/base/httpclient.cc:415-432 | a stream request costs one unit of what is left, including the retries that a refused stream sets off on the spot |
| `HttpClientBound.CompleteWithinBudget` | talk/base/httpclient.cc:727-825 | every completion pays for the requests that it sets off out of redirects, authentication and retries, in that order |
| `HttpClientBound.WorstCostsOne` | talk/base/httpclient.cc:727-815 | there is always a next event that uses up one unit only and leads to one more request |
| `HttpClients.HttpClient.Connect` | talk/base/httpclient.cc:415-432 | asks for a stream at once unless the server must be looked up; each refusal uses up a retry, until there is a stream, a lookup, no retry left, or a document that does not rewind; nothing else about the request changes, the requests are counted exactly, and the recursion through `onHttpComplete` ends |
| `HttpClients.HttpClient.OnHttpComplete` | talk/base/httpclient.cc:727-825 | what comes of every ending, case by case: a retry where one is allowed, the error otherwise, the next part of the exchange after connecting, sending or a 1xx, a redirection, an answer to a proxy, and in all other cases success without another request; every stream it asks for is paid for out of what was left |
| `HttpClients.HttpClient.AnswerChallenges` | talk/base/httpclient.cc:783-812 | the loop over the proxy's challenges, which goes on after a request document fails to rewind |
| `HttpClientOutcomes.AuthenticateIff` | talk/base/httpcommon.cc:769-803 | a challenge is answered exactly if its scheme is basic or digest, none was answered before and there is a user name; it asks for credentials in vain exactly if its scheme is that of the context, or there is no user name; a context, once set, stays |
| `HttpClientOutcomes.CompletesAs` | talk/base/httpclient.cc:727-825 | a redirect is followed exactly when the action, the status class, the Location, the verb and the count allow it and the document can be sent again; after 303 the request is a Get without a document, after any other verb and document stay; retries and context start afresh |
| `HttpClientOutcomes.ConnectTries` | talk/base/httpclient.cc:415-432 | asking for a stream ends with the last answer of the world, gives up only when all retries are used, and counts one request for each attempt |
| `HttpClientOutcomes.ChallengesMeet` | talk/base/httpclient.cc:783-812 | of the challenges of a proxy the first of a known scheme is answered, by the same request with its retries restored; if its document does not rewind, the exchange ends with a stream error, whatever challenges follow |
| `HttpClientOutcomes.UnansweredIff` | talk/base/httpclient.cc:783-825 | a 407 through a proxy ends the exchange without an error exactly when the client has answered before, has no user name, or knows none of the schemes |
| `AuthAttributes.HttpParseAttributes` | talk/base/httpcommon.cc:268-316 | the scan by position returns the attributes of the specification and consumes at least one character per pass |
| `AuthAttributes.QuoteString` | talk/base/httpcommon.cc:722-732 | the loop quotes a string, escaping quotes and backslashes |
| `AuthAttributes.QuotationUndoesEscape` | talk/base/httpcommon.cc:290-299 | reading a quotation undoes escaping, for every value, and stops behind the closing quote |
| `AuthAttributes.EscapeAt` | talk/base/httpcommon.cc:722-732 | quotes and backslashes are escaped, each by a backslash, and nothing else |
| `AuthAttributes.AnyQuotationRead` | talk/base/httpcommon.cc:290-299 | quotations are read alike however many of their characters are escaped, and one that is never closed goes on to the end |
| `AuthAttributes.ReadsBackIff` | talk/base/httpcommon.cc:226-316 | a scheme and its items, as they are printed, are read back as they were if and only if the scheme is not empty and no name holds whitespace, or an equal sign before anything but an equal sign; quoted values are arbitrary |
| `AuthAttributes.SeparatedItemsRead` | talk/base/httpcommon.cc:268-316 | items are read back alike whether a comma, spaces, or a comma and spaces stand between them |
| `AuthAttributes.LateCommaRead` | talk/base/httpcommon.cc:268-316 | a comma that comes behind a space is read as an attribute of that name |
| `AuthAttributes.DigestReadsBack` | talk/base/httpcommon.cc:853-868 | so the answer to a digest challenge is read as it was meant, whatever the user name and the challenge |
| `AuthAttributes.EveryParsedNameIsOk` | talk/base/httpcommon.cc:226-239 | no attribute name that is read holds whitespace or an equal sign before something else |
| `IpPrefix.TruncateIP` | talk/base/ipaddress.cc:312-353 | for every length, negative and too long ones included, the loop over the words returns the truncated address |
| `IpPrefix.TruncatedKeepsPrefix` | talk/base/ipaddress.cc:312-353 | seen as bits, truncating keeps exactly the first n and clears the others, for both families |
| `IpPrefix.TruncatedTwice` | talk/base/ipaddress.cc:312-353 | truncating by a and then by b is truncating by the smaller of the two, for all integers |
| `IpPrefix.CountIPMaskBits` | talk/base/ipaddress.cc:355-400 | the loop over the words and the bit-twiddling count return the specified number |
| `IpPrefix.CountWord` | talk/base/ipaddress.cc:382-399 | the five masked tests find the last set bit of a word, for all 2^32 words |
| `IpPrefix.V4CountIsLeast` | talk/base/ipaddress.cc:355-400 | for every IPv4 mask, contiguous or not, the count is the least length whose truncation leaves the mask unchanged |
| `IpPrefix.V6CountIsLeastIff` | talk/base/ipaddress.cc:363-377 | for an IPv6 mask the count is never more than that length, and equals it if and only if every word after the first that is not all ones is zero |
| `IpPrefix.V6CountIgnores` | talk/base/ipaddress.cc:363-377 | in any case the count is the least length that keeps the mask with the words behind its first one that is not all ones set to zero |
| `IpPrefix.MaskOfLength` | talk/base/ipaddress.cc:312-400 | counting the bits of all ones truncated to n gives n, up to the width of the address |
| `ByteOrder.GetPut` | talk/base/byteorder.h:55-146 | a number put in bytes, in either order and any width, is got back modulo 256 to the width |
| `ByteOrder.PutGet` | talk/base/byteorder.h:55-146 | bytes got as a number are put back as the same bytes |
| `ByteOrder.PutBytes` | talk/base/byteorder.h:55-146 | each byte is the digit of its place to base 256, the last first in little-endian order and the first first in network order |
| `ByteBuffering.NumbersReadBack` | talk/base/bytebuffer.cc:81-188 | numbers written one after the other are read back in the same widths, in either byte order, and what follows is untouched |
| `ByteBuffering.FirstInFirstOut` | talk/base/bytebuffer.cc:152-205 | over any run of writes and reads, with the compactions and reallocations they cause, what was read and what is left is what there was and what was written |
| `ByteBuffering.RewindRestores` | talk/base/bytebuffer.cc:232-242 | in any run, a read position that is still accepted takes the buffer back to exactly what was unread when it was taken, followed by everything written since |
| `ByteBuffering.ByteBuffer.Resize` | talk/base/bytebuffer.cc:207-223 | keeps the front of the unread bytes, as much as is asked for, in place or in a larger array, and invalidates read positions |
| `ByteBuffering.ByteBuffer.WriteBytes` | talk/base/bytebuffer.cc:194-205 | appends, making room first when there is not enough behind the end; read positions outlive it exactly when there was |
| `ByteBuffering.ByteBuffer.ReadBytes` | talk/base/bytebuffer.cc:152-160 | takes the oldest bytes, or fails and changes nothing |
| `ByteBuffering.ByteBuffer.SetReadPosition` | talk/base/bytebuffer.cc:236-242 | goes back exactly when the version is that of the position |
| `ByteBuffering.ByteBuffer.Clear` | talk/base/bytebuffer.cc:244-248 | nothing is left unread, and read positions are invalidated |

## Left out

- AuthAttributes.ReadsBackIff: items printed without quotes must have values that need none, as the two that the digest answer prints do.
- HttpSending.HttpSender.FlushData: the spinning loop is followed for `patience` rounds, because without a document it need not terminate; the answers of the streams are scripts given in advance.
- HttpSending.SendBuffer.AppendChunk: a chunk is put together by appending its parts, while the source reads the document into place and writes the size in front of it; the bytes are the same.
- HttpReceiving.HttpReceiver.Process: one turn of the loop, one line and one piece of data are methods of their own.
- HttpRoundTrip.DeliveredIff: headers that are too long for the buffer are dropped by the sender, and do not count as part of what was meant.
- DiskCacheRuns.EveryRunBalances: asks that file deletions succeed and that no file has two writers; the second condition is shown to be exact.
- DiskCaching.DiskCache.CheckLimit: the scans are a method of their own; what happens after the end iterator has been read is not modelled, and it stops there.
- DiskCacheHazards.LockDanglesIff: is exact over all ways of picking victims; over the scans of the source the condition is necessary only.
- DiskCaching.DiskCache.ReleaseResource: the counters and sizes are updated in a method of their own.
- PacketFraming.AsyncTcpSocket.Send: a program that the assertion stops does not go on; what a build without assertions would do is not modelled.
- HttpClients.HttpClient.OnHttpComplete: following a redirect and answering challenges are methods of their own.
- IpPrefix.TruncateIP: the words of an address are kept in host order and in a sequence; conversions from and to network order cancel out and are not modelled.
- LockFreeQueue.EveryRunSafe: the memory model of the ARM processor, and the instructions of the increment, are taken as atomic steps.
- ByteBuffering.ByteBuffer.SetReadPosition: a position of the current version lies within the buffer, as one from `GetReadPosition` does; the version counter does not wrap.
- HttpClientBound.RequestsBounded: clients without a cache, on systems without SSPI; a request without a Transfer-Encoding header, as `start` demands.
- The decode and encode tables of Base64 are written as functions over ranges instead of 256 and 64 entries.
- `Purge` (it clears the map and not the total), `InitializeEntries`, the names of cache files, and the header and body files of cached responses.
- The streams in which an HTTP body is pulled by its reader, and re-entrant calls from notifications.
- `HttpServer`, caching and validation of responses, dates, URL parsing, SSPI and MD5.
- `HasResource`, `HasResourceStream`, the predicates on address ranges, and other queries that read one field.
- Real sockets, threads, files, name lookups, random numbers, the engine headers and the application code.
- `BandwidthSmoother`, which is floating point over an accumulator that is not part of this model.
