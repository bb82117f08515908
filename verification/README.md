# A verified model of httpd-cpp

httpd-cpp is an HTTP/1.1 server built around three things: an incremental request parser that is fed
whatever the socket delivered, a connection state machine that reads, answers and writes until nothing
makes progress, and a serialiser that derives every framing header itself. This project models all three in
Dafny, in the form the program has them, and proves what they promise.

The main results:

* **Segmentation independence.** For every byte stream and every way of cutting it, the requests, the error,
  every parser field and the bytes consumed are those of the whole stream (`Driver.SegmentationIndependence`,
  resting on the resumption law `Segmentation.Resume`).
* **The parser's language.** A grammar of whole messages over lines whose meaning is stated as shapes
  (`LineGrammar`) and whose header section is judged on the lines as sent (`HeaderLines.FramingRule`), and the
  proof in both directions that the parser accepts exactly it and delivers exactly its meaning
  (`Language.AcceptsExactlyMessages`, `Language.PipelineMeaning`, `Language.DeliveredIsPipeline`), so that no
  stream can be read in two ways (`Language.Unambiguous`). What is refused gets the status of its cause
  (`Refusals.StatusOfRefusal`).
* **The connection.** An object with the program's loops that meets the kernel only through calls whose answers
  any script may give. At every point of every run the bytes on the wire are a prefix of the answers in request
  order (`Runs.WireOrder`), declared lengths are true (`Runs.TruthfulFraming`), memory is bounded
  (`Runs.Backpressure`), it is closing exactly when it has a reason to, and the loop ends
  (`Connection.Connection.Drive`).
* **No lost wake-up, with its exact conditions.** A kept connection was told by the kernel to wait
  (`Runs.NoLostWakeup`), with two exceptions. A full input buffer is excluded by exactly the limits that fit
  (`Backlog.RoomExactly`); under any others some request stops its connection until a timeout closes it
  (`Stalls.StuckRun`). A response can be left waiting on a socket with room exactly when its file has some of the
  bytes promised and not all: at no point of any run otherwise (`Stalls.ParksOnlyOnEarlyEnd`), and under some
  kernel from every point at which such a file still has bytes to send (`Stalls.Park`, `Stalls.ParkingRun`).
* **Liveness.** With limits that fit, intact files, producers that keep their contract and end, and room in the
  kernel, one event that delivers any byte stream ends with nothing left to send and every request answered, up to
  the first that closes (`Service.EverythingServed`, `Service.ServeStream`).
* **Half-close completeness.** Whenever `drive` returns with nothing to send, every complete request received is
  answered and on the wire, up to the first that nothing may follow (`Runs.NothingLeftUnanswered`).
* **End to end.** A client that reads the wire by the heads' own framing fields gets back, in order, the replies that
  the handlers' responses and the requests determine: the status, the fields, all the data of the text, file or
  stream, and the trailers (`Client.WireReadsBack`, `Exchanges.WholeCarries`). At every point of every run what it
  has read are the first of those replies and all that were sent whole (`Client.ClientSoFar`). This rests on the
  round trips of heads and chunked coding (`Response.HeadRoundTrip`, `ChunkedCoding.ChunkedRoundTrip`), on the
  handler's own fields all being there (`Response.HandlerFieldsKept`) and on the framing headers being the derived
  ones whatever the handler set (`Response.FramingHeadersDerived`).
* **Supporting algorithms.** The sliding `ByteBuffer` over every call sequence, the table-driven CRC-32, the path
  normaliser and the two streaming bodies.

## How the model is built

Bytes are `char`s. Numbers are unbounded; where the source relies on 64 bits, the readers carry the wrap of
their accumulator and prove that it never happens. Limits are taken to be far enough below 2^64 that sums of
two of them do not wrap. The major version is not a field of a request, since only major version 1 is let
through.

`RequestParser` defines one turn of the loop in `feed` as a function of the parser's fields (`Machine`) and
the unread bytes; `IncrementalParser.Parser` is the class whose methods update those fields in place, and its
contracts tie each of them to that function. `Connection.Connection` is a class over the same `Machine`; its
input buffer is a byte sequence, which `ByteBuffer.ByteBuffer` refines. The fields that describe the body in
flight are one `Source` value, and what has been answered so far is recorded in a ghost `History`.

The kernel's end is a `Kernel.Socket`: finite scripts of answers to `recv` and to `send`/`sendfile` (a script that
runs out means the call would block), the bytes moved in each direction, and what the calls since the last edge
have shown: that a `recv` would block, that a write came up short, that no room was left, that a call failed. Only
`Kernel.Do` changes it. `Kernel.Went` says that one socket comes from another by calls an edge-triggered program
may make, so that every flag and every byte is what the kernel's answers make it; the connection's own flags are
tied to it at every point (`Connection.Connection.Synced`). An epoll event (`Kernel.Wake`) brings new scripts and
may end the waiting.

A handler is any function of the position of the response and the request, so it may keep state; the `Date` value
and the drain flag likewise depend on the position. A file is the bytes it holds, which may be fewer than the
response promised. A producer is any infinite list of answers.

Two observations about the source that the proofs turned up:

* A short count from `sendfile` is taken to mean that the socket is full. When it is the file that ended early,
  the connection waits for an EPOLLOUT edge although the socket has room. `Sending.StallsExactly` says of one call
  exactly when. Over all kernels a response can end up so exactly when its file has some of the promised bytes and
  not all. Which kernels do it depends on where the file stands in its 1 MiB block when writing resumes
  (`Stalls.SendTheRest`): with room for everything, the connection is given up if a whole number of blocks was
  left, and parked if not. `Stalls.TwoOfFiveStalls` is a case under the default limits.
* A connection whose parser waits on a full input buffer is never read again, until a timeout closes it.
  `Backlog.RoomExactly` shows that no byte stream leads there under exactly the limits that satisfy `LimitsFit`:
  the longest request line must fit the buffer, and so must the longest chunk-size line if the limits admit the
  head of any chunked request at all. The default limits satisfy it. Under all others `Stalls.StuckRun` gives the
  request that stops its connection.

## Model

| member | source | states |
|---|---|---|
| `Text.TrimOws` | src/http/headers.cpp:37-41 | the two cursor loops compute the string without surrounding SP and HTAB |
| `Text.TrimUndoesPadding` | src/http/headers.cpp:37-41 | trimming removes exactly the padding put around a trimmed value |
| `Numbers.HexValueMeaning` | src/http/request_parser.cpp:12-17 | the value of a hex digit is its place among the sixteen, letters in either case, and nothing else is a digit |
| `Numbers.ValueFromFront` | src/http/request_parser.cpp:22-27 | the first digit weighs the base to the number of digits behind it |
| `Numbers.ParseDecimal` | src/http/request_parser.cpp:20-29 | accepts exactly 1 to 19 digits, gives their positional value, never wraps 64 bits |
| `Numbers.ParseHex` | src/http/request_parser.cpp:355-367 | accepts exactly 1 to 16 hex digits, gives their positional value, never wraps 64 bits |
| `Numbers.WidthBounds` | src/http/request_parser.cpp:19-21 | nineteen decimal and sixteen hex digits fit in 64 bits |
| `Numbers.ToBase` | src/http/response.cpp:8-12 | the digits written have the number as their value, without a leading zero |
| `Numbers.DecimalRoundTrip` | src/http/response.cpp:8-12 | reading a written decimal number gives it back |
| `Numbers.HexRoundTrip` | src/http/response.cpp:8-12 | reading a written chunk size gives it back |
| `Headers.Find` | src/http/headers.cpp:43-55 | the first field whose name matches, or none |
| `Headers.IEqualsMeaning` | src/http/headers.cpp:8-20 | names match exactly when they agree letter by letter up to the case of ASCII letters |
| `Headers.FindIgnoresCase` | src/http/headers.cpp:43-55 | a lookup does not depend on the case in which the name is asked for |
| `Headers.HeaderList.SetField` | src/http/headers.cpp:57-63 | replaces or appends, and names stay distinct |
| `Headers.HeaderList.AddField` | src/http/headers.cpp:65-72 | folds or appends, and names stay distinct |
| `Headers.HeaderList.RemoveField` | src/http/headers.cpp:79-85 | removes the field, reports whether it was there, none of that name is left |
| `Headers.SetGet` | src/http/headers.cpp:57-63 | after set, a lookup gives the new value under that name and the old ones elsewhere |
| `Headers.AddGet` | src/http/headers.cpp:65-72 | after add, a lookup gives the old value and the new one joined, and the old ones elsewhere |
| `Headers.RemoveGet` | src/http/headers.cpp:79-85 | after remove, a lookup gives nothing under that name and the old values elsewhere |
| `Headers.AddAllGet` | src/http/headers.cpp:65-77 | a lookup gives every value sent under the name, in arrival order, joined with commas |
| `Headers.ScanToken` | src/http/headers.cpp:87-97 | the loop finds a token exactly when a trimmed member of the list equals it |
| `Headers.MembersSplit` | src/http/headers.cpp:90-96 | the members of a list are what stands between its commas, trimmed |
| `Headers.ParseContentLength` | src/http/request_parser.cpp:33-45 | the loop over members computes the agreed value |
| `Headers.ContentLengthMeaning` | src/http/request_parser.cpp:31-45 | a value is accepted as n exactly when every member is n |
| `Headers.EveryLengthLineAgrees` | src/http/request_parser.cpp:31-45 | the folded value is accepted as n exactly when every Content-Length line as sent says n |
| `HeaderLines.FramingRule` | src/http/request_parser.cpp:304-345 | on the lines as sent: a header section is accepted with this body exactly when version 1.1 sends Host, Content-Length and Transfer-Encoding are not both sent, the one Transfer-Encoding line says chunked and the version is 1.1, and all lengths agree within the limit |
| `HeaderLines.FramingRefused` | src/http/request_parser.cpp:307-343 | and one that is not is refused as not implemented for another coding, as too large for an agreed length beyond the limit, and as bad otherwise |
| `HeaderLines.WordLines` | src/http/headers.cpp:65-77 | a folded field is a given word exactly when one line says it and no other has the name |
| `HeaderLines.TokenLines` | src/http/headers.cpp:87-97 | a folded list has a token exactly when some line of that name has it as a member |
| `HeaderLines.PersistenceRule` | src/http/request_parser.cpp:62-66 | a connection persists unless a Connection line says close, and after HTTP/1.0 only if one says keep-alive |
| `HeaderLines.ExpectRule` | src/http/request_parser.cpp:347-348 | a 100 Continue is awaited exactly when the one Expect line says so |
| `LineGrammar.TokenMeaning` | src/http/headers.cpp:22-35 | a token is visible ASCII without the delimiters of section 5.6.2 of RFC 9110 |
| `LineGrammar.TextMeaning` | src/http/request_parser.cpp:47-54 | targets hold no control byte, space or DEL; field values none but HTAB and spaces |
| `LineGrammar.TargetMeaning` | src/http/request_parser.cpp:251-267 | a target is taken with this path and query exactly when it is a path, a URL or the asterisk of OPTIONS, and they stand before and after its first question mark |
| `LineGrammar.RequestLineMeaning` | src/http/request_parser.cpp:219-271 | a request line is accepted exactly when it is method SP target SP HTTP/1.0 or 1.1 with a target of one of the three forms, and then means those parts, path and query included |
| `LineGrammar.PathQueryMeaning` | src/http/request_parser.cpp:263-267 | path and query are what stands before and after the first question mark |
| `LineGrammar.AbsoluteTarget` | src/http/request_parser.cpp:252-257 | an absolute target loses scheme and authority in any case of letters, and an absent path is "/" |
| `LineGrammar.FieldLineMeaning` | src/http/request_parser.cpp:273-302 | a field line is accepted exactly when it is a token, a colon and a clean value with optional whitespace around it |
| `LineGrammar.ChunkLineMeaning` | src/http/request_parser.cpp:352-367 | a chunk-size line is accepted as n exactly when it is padded hex digits meaning n, with an ignored extension |
| `RequestParser.StepUses` | src/http/request_parser.cpp:118-217 | a turn uses no more than it has, and one that continues uses a byte or leaves the data states |
| `Segmentation.PartialTooLongIsFinal` | src/http/request_parser.cpp:123-127 | an unterminated line is refused only if every completion of it would be, one ending in its last CR included |
| `Segmentation.PartialLimitIsExact` | src/http/request_parser.cpp:123-127 | the partial check refuses n bytes exactly when the shortest line they can belong to is refused |
| `Segmentation.Resume` | src/http/request_parser.cpp:116-217 | feeding a+b is feeding a, then the kept tail with b, counts added, for every parser state |
| `Segmentation.VerdictIsFinal` | src/http/request_parser.cpp:123-135 | once rejected or done, no later byte changes anything |
| `Driver.DrainResume` | fuzz/fuzz_request_parser.cpp:52-69 | the feed-and-take loop can be stopped and resumed anywhere |
| `Driver.SegmentationIndependence` | fuzz/fuzz_request_parser.cpp:3-9 | every way of cutting a stream gives the same requests, error, parser fields, bytes used and bytes kept |
| `Driver.SameStreamSameResult` | fuzz/fuzz_request_parser.cpp:75-88 | two segmentations of one stream cannot be told apart |
| `Driver.PrefixFree` | src/http/request_parser.cpp:212-214 | a complete message completes identically with anything behind it, and no strict prefix of it completes |
| `Driver.Pipelining` | src/http/request_parser.cpp:116-217 | a concatenation of complete messages gives exactly their requests in order |
| `IncrementalParser.Parser.Take` | src/http/request_parser.cpp:94-108 | gives the finished request and leaves a fresh parser |
| `IncrementalParser.Parser.ParseRequestLine` | src/http/request_parser.cpp:220-271 | the in-place parse succeeds exactly on lines of that shape and fills in their parts, or fails as the line's reading says |
| `IncrementalParser.Parser.ParseFieldLine` | src/http/request_parser.cpp:274-302 | the in-place parse fails or adds the field, with the duplicate Host check |
| `IncrementalParser.Parser.EndHeaders` | src/http/request_parser.cpp:305-350 | decides the framing, the remaining count and the Expect flag; succeeds exactly when the lines the header list was folded from announce a body or none |
| `IncrementalParser.Parser.ParseChunkSize` | src/http/request_parser.cpp:353-379 | reads the size or fails, with the body limit |
| `IncrementalParser.Parser.FeedBytes` | src/http/request_parser.cpp:116-217 | the loop of feed ends and computes the step function's closure |
| `IncrementalParser.Run` | fuzz/fuzz_request_parser.cpp:40-71 | the fuzz target's loop, for any step, gives the requests and status of the whole input, and its traps are unreachable |
| `Reachable.FeedKeepsInv` | src/http/request_parser.cpp:118-217 | every reachable state: remaining > 0 exactly in data states, body and header budgets kept, framing kept |
| `Reachable.DrainDelivers` | src/http/request_parser.cpp:305-350 | over whole runs every delivered request is within the body limit and delimited by one framing header at most |
| `Reachable.DelimitedMeaning` | src/http/request_parser.cpp:312-345 | never both framing headers; an agreed Content-Length is the body's length and below 2^64; Transfer-Encoding is chunked and not HTTP/1.0; neither means no body |
| `Reachable.WaitingTail` | src/http/request_parser.cpp:122-206 | the longest tail a waiting parser can leave, state by state |
| `Reachable.FeedKeepsExpect` | src/http/request_parser.cpp:347-348 | once the header section is over the Expect flag does not change |
| `Budget.FeedPaid` | src/http/request_parser.cpp:118-173 | at every state the byte and line counters cover what the request line, headers and trailers kept must have cost |
| `Budget.DrainPaid` | src/http/request_parser.hpp:42-48 | over whole runs every delivered request is within all five limits |
| `Messages.LineLeads` | src/http/request_parser.cpp:144-172 | an accepted line takes the parser on by exactly its bytes, whatever follows |
| `Messages.FieldsLead` | src/http/request_parser.cpp:142-173 | a field section within its budget is taken line by line, one Host at most |
| `Messages.ChunksLead` | src/http/request_parser.cpp:175-210 | chunks are taken as their data, whatever bytes that holds |
| `Language.Complete` | src/http/request_parser.cpp:116-217 | every well-formed message is parsed as what it means and nothing behind it is touched |
| `Language.Sound` | src/http/request_parser.cpp:116-217 | whenever the parser is done, the bytes it used are a well-formed message |
| `Language.AcceptsExactlyMessages` | src/http/request_parser.cpp:116-217 | the parser is done exactly when a well-formed message is a prefix, and delivers its meaning |
| `Language.Unambiguous` | src/http/request_parser.cpp:314-318 | one stream has one first message |
| `Language.PipelineMeaning` | src/http/request_parser.hpp:50-58 | a pipeline of well-formed messages is delivered as their meanings in order |
| `Language.DeliveredIsPipeline` | src/http/request_parser.hpp:50-58 | whatever is delivered is a pipeline of well-formed messages |
| `Language.FramingLines` | src/http/request_parser.cpp:304-345 | section 6.3 of RFC 9112 on the lines as sent: lengths agree line by line and equal the body, Transfer-Encoding excludes Content-Length |
| `Language.PersistenceLines` | src/http/request_parser.cpp:62-66 | whether the connection persists after a message, on its lines as sent |
| `Refusals.OtherLineMeaning` | src/http/request_parser.cpp:236-249 | a line is refused for its version exactly when method, target and version are well formed and that is neither 1.0 nor 1.1 |
| `Refusals.StatusOfRefusal` | src/http/request_parser.cpp:68-79 | from every state, 414 exactly for a request line too long, 505 for another version, 431 for a field section with too many bytes or lines, 413 for a body beyond its limit, 501 for another coding, 400 for everything else |
| `Refusals.DrainRefused` | src/http/request_parser.cpp:110-217 | over whole runs, a failed parser has the status of the refusal that failed it |
| `Requests.RequestIsMessage` | src/http/request_parser.cpp:219-345 | every clean request within the limits has a text that is a well-formed message meaning it, path and query included |
| `Requests.RequestRoundTrip` | src/http/request_parser.cpp:116-217 | writing any clean request and feeding it, with anything behind, delivers it with its path and query and stops at its last byte |
| `Response.ReasonPhrase` | src/http/response.cpp:21-48 | the phrase of a status never holds a line break |
| `Response.PhraseTable` | src/http/response.cpp:21-48 | and is the one of the table, or Unknown |
| `Response.FramingMeaning` | src/http/response.cpp:59-76 | 1xx, 204 and 304 have no body; a stream of unknown length goes in chunks to HTTP/1.1 and up to the close to HTTP/1.0; everything else declares its length |
| `Response.NonFramingKeeps` | src/http/response.cpp:86-89 | the fields written are the handler's at exactly the positions, in order, whose names are not the server's to set |
| `Response.WriteFields` | src/http/response.cpp:86-89 | the loop writes exactly the handler's fields whose names are not the server's to set, all of them and in order |
| `Response.WriteHead` | src/http/response.cpp:58-108 | appends exactly the head's text, which begins with the handler's own fields, and returns the framing |
| `Response.HeadRoundTrip` | src/http/response.cpp:79-107 | splitting an emitted head gives the status line, the fields one for one, and the body untouched |
| `Response.FieldRoundTrip` | src/http/response.cpp:88 | a written field reads back as its name and trimmed value |
| `Response.FramingHeadersDerived` | src/http/response.cpp:91-105 | whatever the handler set, at most one Content-Length and one Transfer-Encoding, never both, the given Date, and Connection close or, to a persisting HTTP/1.0 client, keep-alive |
| `Response.HandlerFieldsKept` | src/http/response.cpp:86-90 | under every other name, in any case of letters, the head has exactly the handler's fields, and Server is filled in only if absent |
| `Response.CloseIsAnnounced` | src/http/response.cpp:77-105 | the head says close exactly when the connection will not go on |
| `ChunkedCoding.AppendChunk` | src/http/response.cpp:110-114 | appends one chunk, or nothing for an empty piece |
| `ChunkedCoding.AppendLastChunk` | src/http/response.cpp:116-120 | appends the last chunk and the trailer section |
| `ChunkedCoding.ChunkedRoundTrip` | src/http/response.cpp:110-120 | what is written for any pieces and clean trailers is read back to its last byte as the concatenated pieces and the trailers |
| `Exchanges.DeclaredLengthIsSent` | src/server/server.cpp:411-430 | a declared length is never exceeded and is met exactly when the body is whole, for memory, file and sized-stream bodies |
| `Exchanges.ChunkedBodyReadsBack` | src/server/server.cpp:543-556 | a finished chunked body is read back as the producer's data and last trailers |
| `Exchanges.WholeCarries` | src/server/server.cpp:414-430 | a whole exchange carries what the response promises for the request: nothing for HEAD and bodiless statuses, the range of the file, all pieces up to the producer's last answer with its trailers, or the text |
| `Exchanges.GoesOnMeaning` | src/server/server.cpp:407-412 | the connection goes on exactly when the request persists, the server is not draining and the client can tell where the body ends |
| `Exchanges.TracksFeed` | src/server/server.cpp:379-396 | feeding and taking keep requests, parser and input together equal to the meaning of all bytes received, whatever arrives next |
| `Sending.PullPieces` | src/server/server.cpp:534-548 | for every producer: the text pulled is what its answers mean, within the low-water mark plus one piece; refused only on a contract violation that this refill meets |
| `Sending.Pull` | src/server/server.cpp:530-561 | the same with the last chunk and trailers |
| `Sending.RefillBounded` | src/server/server.cpp:528-534 | with pieces of at most n bytes a refill queues less than 64 KiB, n plus twenty bytes and the end of the body |
| `Sending.Compact` | src/server/server.cpp:471-477 | compaction keeps the pending bytes |
| `Sending.StreamStep` | src/server/server.cpp:530-561 | a refill keeps the log and the byte order, and makes closing necessary exactly after a short sized body |
| `Sending.FileStep` | src/server/server.cpp:487-516 | file bytes on the wire keep the log and the byte order |
| `Sending.AnswerBegun` | src/server/server.cpp:403-432 | dispatching keeps the log in request order and the bytes in order, and makes closing necessary exactly when the response says so |
| `Sending.StallsExactly` | src/server/server.cpp:501-514 | a short sendfile leaves a socket with room exactly when the file ended first |
| `Sending.BlocksStep` | src/server/server.cpp:487-516 | a sendfile that the program goes on after leaves the file where it stood in its block; one that came up short with room to spare does not |
| `Kernel.WentReads` | src/server/server.cpp:343-368 | after any permitted calls the bytes received are those of the answers used up, and a dry or ended socket said so last |
| `Kernel.WentWrites` | src/server/server.cpp:453-516 | after any permitted calls the wire has only grown, and a short socket has a last write that was told to wait or took no more than its room, and is full exactly if it took all of that |
| `Kernel.WentRoomy` | src/server/server.cpp:478-483 | a socket with room for everything sent is never full |
| `Backlog.DrainSettles` | src/server/server.cpp:374-399 | what draining leaves is a parser that has done all it can with the rest |
| `Backlog.AwaitingChunkMeansFits` | src/http/request_parser.cpp:304-345 | whoever waits for a chunk size has paid for a request line, a Host and a Transfer-Encoding line, so the limits admit a chunked head |
| `Backlog.ChunkedHeadLeads` | src/http/request_parser.cpp:116-217 | where they do, the shortest chunked head leads every stream it begins to a chunk size |
| `Backlog.FillingWaits` | src/server/server.cpp:200-201 | under limits that do not fit, a concrete stream leaves a waiting parser and a full buffer |
| `Backlog.FitLeavesRoom` | src/server/server.cpp:200-201 | under limits that fit, no stream does |
| `Backlog.RoomExactly` | src/server/server.cpp:200-201 | no byte stream leads a parser to wait on a full buffer if and only if the limits fit |
| `Backlog.DefaultLimitsFit` | src/http/request_parser.hpp:42-48 | the default limits do |
| `Connection.Connection.DoRead` | src/server/server.cpp:343-368 | all bytes the kernel gave are received and buffered, below the buffer limit plus one read; it stops only when recv would block, ended or failed, or the buffer is full |
| `Connection.Connection.Dispatch` | src/server/server.cpp:403-432 | one exchange is begun, as the handler decided, behind everything queued, with a head and a body that are the response's own (`Response.HandlerFieldsKept`, `Exchanges.WholeCarries`); the connection closes after it exactly when nothing may follow it |
| `Connection.Connection.QueueError` | src/server/server.cpp:434-443 | the error response is queued and the connection closes after it |
| `Connection.Connection.Process` | src/server/server.cpp:370-401 | stops only when closing for a reason, blocked by a body or by high water, out of input, or waiting; exactly the requests that wait for it have been sent a 100 Continue |
| `Connection.Connection.SendQueued` | src/server/server.cpp:455-485 | one send of all that is queued: exactly the bytes the kernel took leave the queue, and writing stops exactly when the kernel came up short |
| `Connection.Connection.SendFile` | src/server/server.cpp:487-516 | one sendfile of the next block: exactly the bytes the kernel took count as sent, and writing stops with room left exactly when the file ended inside the block |
| `Connection.Connection.Refill` | src/server/server.cpp:530-561 | backpressure: starts from an empty queue and stays below the low-water mark plus one piece and the end of the body |
| `Connection.Connection.DoWrite` | src/server/server.cpp:453-526 | by permitted calls only, ends with nothing to write or with a socket that came up short; gives up only on a failed call, a file at its end, or a producer that breaks its contract |
| `Connection.Connection.Turn` | src/server/server.cpp:317-327 | progress lowers a lexicographic rank; no progress means quiet in both directions; on a full buffer with a waiting parser nothing changes |
| `Connection.Connection.Drive` | src/server/server.cpp:316-341 | ends, by permitted calls only, and each verdict is justified: kept with output only on a short write, kept without only dry and fully answered, finished only behind an exchange that closes, gone only with everything answered, aborted only on a failed call, a file at its end, or a broken producer |
| `Runs.OnEvent` | src/server/server.cpp:265-273 | the same for one epoll event; a connection stuck on a full buffer stays so |
| `Runs.Serve` | src/server/server.cpp:241-273 | the socket is what the events served and the calls made for them make it; all events are served unless a verdict ends the run, and the last verdict is justified |
| `Runs.RunReceives` | src/server/server.cpp:241-273 | over a run, what was received is what was used up of each event's answers, in order |
| `Runs.NoLostWakeup` | src/server/server.cpp:316-341 | a kept connection was told to wait by the last answer in the direction it waits for; only a file that ended inside a block is an exception |
| `Runs.NothingLeftUnanswered` | src/server/server.cpp:329-340 | with nothing to send, every complete request received is answered and on the wire, up to and including the first that nothing may follow |
| `Stalls.StuckRun` | src/server/server.cpp:319-368 | under limits that do not fit, a run after which nothing is ever read from the connection again, whatever events follow |
| `Stalls.ParksOnlyOnEarlyEnd` | src/server/server.cpp:511-514 | at every point of every run, unable to write on a socket with room means a file with some of the promised bytes and not all, all of them sent |
| `Stalls.SendTheRest` | src/server/server.cpp:487-516 | from any point with such a file in flight, an event with room for everything sends all its bytes, then aborts if whole blocks were left and parks if not |
| `Stalls.Park` | src/server/server.cpp:487-516 | from any point at which it still has bytes to send, a kernel under which the connection ends up kept, unable to write, on a socket with room |
| `Stalls.ParkingRun` | src/server/server.cpp:487-516 | so for every server, every file with some of the promised bytes and not all, and every request for it that does not fill the input buffer, a whole run that does |
| `Stalls.ShortFileRun` | src/server/server.cpp:487-516 | every response that promises more than its file has, to a request that does not fill the input buffer, once the socket has room for all of it: aborted if the bytes present are whole blocks, parked if not |
| `Stalls.TwoOfFiveStalls` | src/server/server.cpp:511-514 | a plain request answered with five bytes of a two-byte file is such a case |
| `Service.EverythingServed` | src/server/server.cpp:313-341 | given room, fitting limits, intact files and producers that keep their contract and end, one event that delivers a stream ends with nothing to send and every request answered, up to the first that closes |
| `Service.ServeStream` | src/server/server.cpp:265-273 | the run itself |
| `Runs.WireOrder` | src/server/server.cpp:372-374 | in every run the wire is a prefix of the answers in request order, at most one 100 Continue, head, body each |
| `Runs.AnsweredAreDelivered` | src/server/server.cpp:379-396 | every answered request was delimited and within all five limits |
| `Runs.TruthfulFraming` | src/http/response.hpp:57-61 | a response declaring n bytes has exactly n before the next response begins |
| `Runs.ShortBodyIsLast` | src/server/server.cpp:557 | a body that came up short is the last thing on its connection |
| `Runs.NoBodyWhereNoneBelongs` | src/server/server.cpp:414 | HEAD and no-content responses put no body byte on the wire |
| `Runs.NothingAfterClose` | src/server/server.cpp:374-412 | nothing follows a response that closes |
| `Runs.Backpressure` | src/server/server.cpp:345-349 | at every point input, queued output and a stream in flight stay below their bounds, however long the body |
| `Runs.AnswersDependOnBytesOnly` | src/server/server.cpp:370-432 | two connections that received the same bytes agree on every answer, however cut and drained |
| `Client.HeadReadsBack` | src/http/response.cpp:79-107 | a client reads the status and the fields of a head back, and the body behind it untouched |
| `Client.FramingReadsBack` | src/http/response.cpp:58-76 | from those fields it finds out the framing the server decided on |
| `Client.BodyReadsBack` | src/server/server.cpp:414-430 | delimited by that framing, a whole body gives back its data and trailers and nothing of what follows, for memory, file, sized, chunked and close-delimited bodies |
| `Client.ReplyReadsBack` | src/server/server.cpp:386-392 | one whole exchange, with or without a 100 Continue, is read back as the reply that response and request determine, except that one only the close ends waits for it |
| `Client.ErrorReply` | src/server/server.cpp:434-443 | the reply to input that cannot be parsed: the status of its error, its reason as text, the close announced |
| `Client.ReplyNotYet` | src/server/server.cpp:453-526 | nothing is read from an exchange that is not whole |
| `Client.ReadReplyStable` | src/server/server.cpp:370-432 | a complete reply stays what it is whatever arrives behind it |
| `Client.WireReadsBack` | src/server/server.cpp:370-432 | the wire of a connection with nothing left to send is read back as the replies that handlers and requests determine, in order, whatever was done to send them |
| `Client.ClientSoFar` | src/server/server.cpp:370-432 | at every point of every run the client has read the first of the replies decided, and every one sent whole |
| `ByteBuffer.ByteBuffer.Consume` | src/util/byte_buffer.hpp:23-26 | drops exactly the first n readable bytes |
| `ByteBuffer.ByteBuffer.Slide` | src/util/byte_buffer.hpp:33-34 | moving the live bytes over themselves keeps them |
| `ByteBuffer.ByteBuffer.Grow` | src/util/byte_buffer.hpp:36-41 | the doubling loop ends, keeps the bytes and reaches the first doubling that suffices |
| `ByteBuffer.DoubledBounds` | src/util/byte_buffer.hpp:36-37 | which is enough, and within twice the need |
| `ByteBuffer.ByteBuffer.Prepare` | src/util/byte_buffer.hpp:30-46 | keeps the readable bytes and gives n writable ones: as they are, by sliding, or by growing when sliding cannot |
| `ByteBuffer.ByteBuffer.Fill` | src/server/server.cpp:346-347 | what recv writes into the room is not readable yet and changes nothing that is |
| `ByteBuffer.ByteBuffer.Commit` | src/util/byte_buffer.hpp:49 | makes exactly the next n bytes readable |
| `ByteBuffer.QueueIsFifo` | src/util/byte_buffer.hpp:17-56 | over every allowed call sequence the readable bytes are those committed without those consumed |
| `ByteBuffer.CapacityBounded` | src/util/byte_buffer.hpp:30-46 | over every call sequence the capacity stays within 4096 or twice the most ever live and prepared |
| `ByteBuffer.RunOps` | src/util/byte_buffer.hpp:17-56 | the buffer does so for every allowed sequence of prepare, commit and consume, repeated, vain and partly used prepares included |
| `Crc32.MakeTable` | src/util/crc32.cpp:8-16 | the nested loops fill the table with eight division steps of each index |
| `Crc32.TableStep` | src/util/crc32.cpp:25 | one look-up is the division of eight message bits one at a time |
| `Crc32.Compute` | src/util/crc32.cpp:23-27 | the loop computes the bit-at-a-time checksum of every string from every start |
| `Crc32.CrcComposes` | src/util/crc32.hpp:9-12 | passing a checksum on gives the checksum of the concatenation |
| `Crc32.CheckValue` | tests/test_response.cpp:94 | the checksum of the digits one to nine is the catalogued check value |
| `Producers.Stream.Next` | src/app/routes.cpp:105-118 | the closure gives line after line with the running checksum, and the trailers with the last |
| `Producers.StreamLineSays` | src/app/routes.cpp:106-109 | a line names its own number and how many there are |
| `Producers.StreamKeepsContract` | src/app/routes.cpp:105-118 | the stream is never aborted |
| `Producers.StreamTrailersDescribeBody` | src/app/routes.cpp:112-117 | the trailers name the checksum of the whole body however it was pulled |
| `Producers.Hex8Meaning` | src/app/routes.cpp:113-116 | the checksum is written as eight digits with small letters whose value it is |
| `Producers.StreamVerifies` | src/app/routes.cpp:95-119 | a client that decodes the finished body gets the lines and trailers naming the checksum of exactly what it got |
| `Producers.Bytes.Next` | src/app/routes.cpp:131-136 | the closure gives the next window of the alphabet |
| `Producers.BytesKeepContract` | src/app/routes.cpp:131-136 | the sized stream is never aborted |
| `Producers.BytesExact` | src/app/routes.cpp:130-136 | exactly n bytes of the endless alphabet are sent |
| `StaticFiles.Decode` | src/app/static_files.cpp:62-76 | the index-driven loop percent-decodes, refusing malformed escapes, NUL and backslash |
| `StaticFiles.UnescapeMeaning` | src/app/static_files.cpp:62-76 | a path is accepted as d exactly when it is plain bytes and escapes that stand for d, none of them refused |
| `StaticFiles.Normalise` | src/app/static_files.cpp:78-91 | the segment loop refuses ".." and joins the rest without empty and "." segments |
| `StaticFiles.Sanitize` | src/app/static_files.cpp:61-92 | the two loops together |
| `StaticFiles.AcceptedIsSafe` | src/app/static_files.cpp:61-92 | an accepted path is empty or made of names that are not empty, dots or climbs and hold no slash, NUL or backslash |
| `StaticFiles.SanitizedMeaning` | src/app/static_files.cpp:61-92 | a path is accepted as r exactly when it spells segments of which none is "..", and r is those that are neither empty nor ".", in order, joined with slashes |
| `StaticFiles.EncodedPathRoundTrip` | src/app/static_files.cpp:61-92 | escaping every byte of any list of proper names and sanitising gives the list joined |

## Left out

- epoll registration, accepting, listeners, the eventfd, threads and CPU pinning: system-call plumbing around the connection.
- The idle and header timeouts (`sweep`): an external close at any moment, which every result about prefixes covers.
- Draining the socket after the final FIN (`shutdown` and the sink loop in `drive`): the bytes are discarded.
- Router matching and the 405 `Allow` text: a handler is an arbitrary function here.
- File opening, `openat2`, `fstat` and MIME types: foreign calls and a table.
- Metrics, latency records and `request_start_us`: counters that nothing else reads.
- The fuzz target's digest of a request: the model compares the requests themselves.
- Connection: its input is a byte sequence and its parser a `Machine` value; update in place is proved separately in `ByteBuffer` and `IncrementalParser`, so aliasing between them is not modelled.
- The wording of error details: only the error and its status are tied to their cause.
- Client: handlers whose own fields or trailers hold line breaks, surrounding whitespace or invalid names are outside `Client.WireReadsBack`, since such heads do not mean themselves; interim statuses as final ones likewise.
- Connection.Connection.Drive: the kernel's scripts are finite, so a peer that sends forever within one call is not modelled.
- Exchanges: a file's bytes do not change while it is sent, only fewer of them may exist than promised.
- Producers: parsing the number in the path and its upper bounds are not modelled; the results hold for every n.
