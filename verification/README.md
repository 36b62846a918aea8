# What this project proves

The repository holds adapters that sample industrial devices (Modbus, OPC-UA, MTConnect), publish the samples and
capture network flows. This project models its most intricate parts in Dafny and proves properties of the model.
Every result is about all inputs, all runs or all interleavings of the part it names.

| modules | part |
|---|---|
| `Multipart`, `PartHeader`, `MultipartParser`, `MultipartEpilogue`, `MultipartChunking`, `MultipartGrammar`, `MultipartRefusal`, `MultipartRoundTrip`, `MultipartHeaderLimit`, `HeaderPattern` | the incremental multipart parser of the vendored HTTP library, its sliding buffer, the texts it accepts, and the matching serializer |
| `SocketOwnership`, `SocketAlone`, `SocketForgotten` | the protocol by which the HTTP client's `send` and `stop` share a socket |
| `WorkerPool` | the HTTP server's thread pool |
| `Streams`, `Hexadecimal`, `ChunkedTransfer`, `ChunkGrammar` | buffered socket reads, the line reader, chunked transfer coding and the texts it takes |
| `Percent`, `PercentText`, `QueryText`, `Multimap`, `HeaderBlock`, `Base64`, `PathWalk` | the codecs of the HTTP library and its path check |
| `SampleLedger`, `SampleBodies`, `SampleRuns`, `SampleRow` | the two tasks of a Modbus sampling channel, and the row one sampling reads |
| `EventSemaphore` | the event made of a flag and a semaphore that stops those tasks |
| `Flow`, `FlowTable` | the flow table of the capture program |
| `ModelIndex`, `ModelSearch` | the index from ids to places in a device model |
| `RegisterCodec` | numbers in Modbus registers |
| `Text`, `Wrappers` | strings and optional values |

## How it is modelled

An object that changes is a class proved against an abstract value (`MultipartFormDataParser`, `SocketStream`,
`StreamLineReader`, `DataSink`, `PathParse`, `Capture`); a loop over an array or a string is a method with a loop
proved against a function; the laws are lemmas about those functions. What runs in several threads is a step system
in which a step is one statement of one thread, and a run is any sequence of steps.

- Byte strings are sequences of characters.
- A socket gives any positive number of the bytes that have arrived, or fails; what it gives is a choice inside
  `Streams.SocketStream.ReadSocket`. Callbacks are arbitrary functions or may refuse at any time.
- Machine arithmetic is written out: counters of 16, 32 and 64 bits wrap, C's division truncates, the base-64
  accumulator has 32 bits, register values are bit vectors.
- `ndpi_tfind` and `ndpi_tsearch` are a binary search tree ordered by `node_cmp`.
- A register goes over the wire high byte first (section 4.2 of the MODBUS Application Protocol Specification V1.1b3).

## Where the code does not do what one would expect

Each of these is a lemma with a concrete run or input. Beside it stands the condition under which the expected holds,
exact except where one direction is named as such.

- The multipart parser drops a first delimiter line that is cut in two (`LostOpening`, `ByteAtATimeNeverStarts`). That
  it is not cut is enough (`CutsFromStart`), but not always needed: other text can make up for it
  (`CutOpeningRecovers`).
- Text behind the closing delimiter, dropped in the same call, opens a new part or stays in the buffer when it comes in
  a call of its own (`EpilogueReopens`), except for texts that look like the end of a closing delimiter
  (`EpilogueExactly`, `EpilogueInOneCall`).
- Only the header line that is first in the buffer at a call is held against the limit. A line as long as the limit
  fails when it is cut inside its line end (`LimitLineFails`, `LimitLineCut`); a later line over the limit is accepted
  whole and refused when it is cut (`LaterLineCut`). So the round trip, which allows every cut, asks for lines below
  the limit.
- A `stop` during a request is forgotten when the response redirects to the same host (`StopForgotten`); without a
  redirect it never is (`StopHonoured`), nor with one unless a send resets the flag afterwards (`StopLasts`).
- Sampled values pushed between the copy and the clear of an upload are lost, and columns can then differ in length
  (`InterleavingLoses`); `Ledger` says which, and with undisturbed bodies there are none (`NothingIsLost`).
- The reader of chunked content takes a chunk without its CRLF for the end of the body and reports success
  (`WrongSeparatorAccepted`, `ChunkBehindWrites`).
- A packet whose total length is below that of its own IP header is read as if it had TCP or UDP ports, since the
  difference wraps (`FieldsGive`: `HasPorts` says for which packets; `OnePacket`, `TwoPackets`).
- The index points nowhere below a device or component with configs and no data items (`LosesItem`), and only
  there (`PointerResolves`).
- A pool without workers shuts down and leaves its jobs undone (`NoWorkers`); any other does not (`ShutdownWaits`).
- Little-endian values come back from the registers with their words reversed (`ReadsBack32`, `ReadsBack64`,
  `LittleEndianReadsBack`).
- One set of the event wakes one of two waiters without timeouts (`OneOfTwoWakes`): they need a set each
  (`OneSetForEach`). Waits with timeouts, as the program's are, need one in all (`SetIsSeen`).
- An event without manual reset that is created set can let two waits return (`TwoReturnFromOneState`), when the second
  takes the semaphore's one between the first one's clearing of the flag and its draining; undisturbed, the first leaves
  nothing to take (`WaitFindsFlag`). The program has no such event.

## Model

| member | source | states |
|---|---|---|
| `MultipartChunking.ChunkIndependence` | MTConnect/thirdparty/httplib/httplib.h:3858-3959 | However the input is cut into `parse` calls that return true, the parser ends in the state, validity, remaining text, header callbacks and collected content of one call on the whole input; exactly when what is fed behind the closing delimiter is dropped; the first delimiter line is not cut |
| `MultipartChunking.TidyFeed` | MTConnect/thirdparty/httplib/httplib.h:3883-3957 | On input whose header lines stay under the limit and which ends with its closing delimiter, every cutting succeeds, so ChunkIndependence applies |
| `MultipartChunking.CutsFromStart` | MTConnect/thirdparty/httplib/httplib.h:3870-3877 | It is enough for that that the first chunk holds the first delimiter line |
| `MultipartChunking.TwoCalls` | MTConnect/thirdparty/httplib/httplib.h:3858-3959 | Two calls against one, exactly: the second call goes on as one call does, unless the header line pending is over the limit, when it fails; once the closing delimiter is read, one call drops what follows |
| `MultipartChunking.RunAppend` | MTConnect/thirdparty/httplib/httplib.h:3868-3956 | Two calls of the loop against one: where the first stops for want of text, the rest goes on as if the text had been there all along |
| `MultipartChunking.BodyCut` | MTConnect/thirdparty/httplib/httplib.h:3915-3937 | The body text kept back when no delimiter is found is enough to find one completed by later text: only the cutting of the content into callbacks differs |
| `MultipartChunking.RunEnds` | MTConnect/thirdparty/httplib/httplib.h:3883-3953 | With accepting callbacks `parse` returns false only for a header line over the limit, and becomes valid only at the closing delimiter, with no text left |
| `MultipartChunking.LostOpening` | MTConnect/thirdparty/httplib/httplib.h:3870-3873 | A call without the whole first delimiter line drops its text: the next call starts afresh |
| `MultipartChunking.ByteAtATimeNeverStarts` | MTConnect/thirdparty/httplib/httplib.h:3870-3873 | Fed byte by byte, the parser never leaves its first state |
| `MultipartEpilogue.EpilogueExactly` | MTConnect/thirdparty/httplib/httplib.h:3938-3952 | Calls after the closing delimiter leave the parser as it is if and only if the texts held each time grow to begin with two dashes and a line end, or are empty, and nothing is held at the end |
| `MultipartEpilogue.EpilogueInOneCall` | MTConnect/thirdparty/httplib/httplib.h:3938-3952 | One such call leaves it as it is if and only if its text is empty or begins with two dashes and a line end |
| `MultipartEpilogue.EpilogueReopens` | MTConnect/thirdparty/httplib/httplib.h:3938-3952 | A line end, and whatever follows it, is dropped in the call of the closing delimiter, and opens a part in a later call |
| `MultipartHeaderLimit.FirstLineCut` | MTConnect/thirdparty/httplib/httplib.h:3884-3885 | The header line first in the buffer, of any length and cut anywhere: the first call fails exactly when it brings more than the limit of it; otherwise the second call does what one call does, and both fail when the line is over the limit |
| `MultipartHeaderLimit.LimitLineCut` | MTConnect/thirdparty/httplib/httplib.h:3884-3885 | A line within the limit passes whole; cut, it fails exactly when it is as long as the limit and cut inside its line end |
| `MultipartHeaderLimit.LimitLineFails` | MTConnect/thirdparty/httplib/httplib.h:3884-3885 | A line of 8192 characters passes whole, and fails when cut before its line feed |
| `MultipartHeaderLimit.LaterLineCut` | MTConnect/thirdparty/httplib/httplib.h:3884-3911 | A later line is read whatever its length when it comes with the first; when it is cut, the second call succeeds in its place exactly when it is within the limit |
| `MultipartRoundTrip.RoundTrip` | MTConnect/thirdparty/httplib/httplib.h:4100-4124 | Parsing what `serialize_multipart_formdata` writes gives back the items in order and leaves the parser valid and empty, for any cutting behind the first delimiter line, empty chunks included; boundary of allowed characters, quotable names, trimmed content types, contents without the delimiter (section 5.1.1 of RFC 2046) |
| `MultipartRoundTrip.RoundTripWithOthers` | MTConnect/thirdparty/httplib/httplib.h:3883-3914 | The same with lines of other headers (any field name but Content-Disposition and Content-Type, in any letter case) anywhere among the header lines of the parts |
| `MultipartRoundTrip.OthersReportNothing` | MTConnect/thirdparty/httplib/httplib.h:3895-3910 | A header block with such lines inserted anywhere is reported by the same callback as without them |
| `MultipartGrammar.AcceptsExactly` | MTConnect/thirdparty/httplib/httplib.h:3858-3959 | One call accepts a text if and only if it is a form: text without the first delimiter line, that line, and parts up to the closing delimiter; then it reports exactly the form's parts, each described by its own header lines |
| `MultipartGrammar.FormRead` | MTConnect/thirdparty/httplib/httplib.h:3868-3956 | Any form is accepted, with any preamble, any header lines, any contents without the delimiter and any text behind the end |
| `MultipartGrammar.FormIs` | MTConnect/thirdparty/httplib/httplib.h:3868-3956 | Nothing else is accepted: a text after which the parser is valid can be taken apart as a form |
| `MultipartGrammar.FormReadInChunks` | MTConnect/thirdparty/httplib/httplib.h:3858-3959 | A form without anything behind it is read the same way when it is cut anywhere behind the first delimiter line, header lines below the limit |
| `MultipartRefusal.RefusalCuts` | MTConnect/thirdparty/httplib/httplib.h:3888-3937 | With callbacks that refuse, the calls made are the first calls of the accepting run, all but the last accepted; a refused call ends the parse with false and not valid |
| `MultipartRoundTrip.CutOpeningRecovers` | MTConnect/thirdparty/httplib/httplib.h:3870-3873 | A first delimiter line that is cut, with another behind it: the parser ends as in one call |
| `MultipartGrammar.FindBehind` | MTConnect/thirdparty/httplib/httplib.h:4008-4029 | A delimiter whose first character does not recur in it cannot overlap itself: behind text without it, it is found where it was put |
| `MultipartRoundTrip.EmptyFormIsRejected` | MTConnect/thirdparty/httplib/httplib.h:4106-4120 | Serializing no items gives text after which the parser is not valid |
| `MultipartRoundTrip.SerializeMultipartFormdata` | MTConnect/thirdparty/httplib/httplib.h:4100-4124 | The body and content type written, item by item |
| `MultipartRoundTrip.HeaderLinesRead` | MTConnect/thirdparty/httplib/httplib.h:3883-3914 | The header lines that the serializer writes for a part are read back into its name, filename and content type |
| `PartHeader.DispositionReads` | MTConnect/thirdparty/httplib/httplib.h:3862-3908 | The Content-Disposition expression, matched with backtracking, takes from a written line exactly its name and filename |
| `PartHeader.ContentTypeReads` | MTConnect/thirdparty/httplib/httplib.h:3898-3901 | The content type is read back trimmed, whatever the case of the header's name |
| `PartHeader.OtherHeader` | MTConnect/thirdparty/httplib/httplib.h:3895-3909 | A line whose field name is neither Content-Disposition nor Content-Type in any letter case leaves the description as it is |
| `HeaderPattern.MatchesExactly` | MTConnect/thirdparty/httplib/httplib.h:3862-3865 | The matcher finds name and filename if and only if the line is what the expression describes: blanks, letter case, the shortest name, the shortest filename if there can be one, an optional filename* part, blanks |
| `HeaderPattern.DispositionLineIs` | MTConnect/thirdparty/httplib/httplib.h:3902-3908 | Such a line sets name and filename, and nothing else |
| `HeaderPattern.MalformedLine` | MTConnect/thirdparty/httplib/httplib.h:3902-3908 | A line that is no such line and no content type changes nothing |
| `HeaderPattern.TypeLineIs` | MTConnect/thirdparty/httplib/httplib.h:3896-3901 | A content type line, its name in any letter case, sets the content type to its text without the blanks around it |
| `MultipartParser.MultipartFormDataParser.Parse` | MTConnect/thirdparty/httplib/httplib.h:3858-3959 | The class's `parse` over its sliding buffer does to its abstract state what the plain-string `Multipart.Parse` does, and returns the same answer |
| `MultipartParser.MultipartFormDataParser.Turn` | MTConnect/thirdparty/httplib/httplib.h:3868-3956 | One turn of the outer loop, in each of the five states |
| `MultipartParser.MultipartFormDataParser.ParseHeaders` | MTConnect/thirdparty/httplib/httplib.h:3883-3914 | State 2: the length check, the inner loop over header lines, and the header callback, as a function of the buffered text whose lines HeaderPattern and OtherHeader explain |
| `MultipartParser.MultipartFormDataParser.ParseBody` | MTConnect/thirdparty/httplib/httplib.h:3915-3937 | State 3: content up to the delimiter, or all but the length of a delimiter |
| `MultipartParser.MultipartFormDataParser.ParseBoundary` | MTConnect/thirdparty/httplib/httplib.h:3938-3954 | State 4: another part, the end, or not enough text |
| `MultipartParser.MultipartFormDataParser.ParseInitial` | MTConnect/thirdparty/httplib/httplib.h:3870-3877 | State 0: everything before the first delimiter line is dropped |
| `MultipartParser.MultipartFormDataParser.BufFind` | MTConnect/thirdparty/httplib/httplib.h:4008-4029 | The first occurrence in the buffered text, or its length if there is none |
| `MultipartParser.MultipartFormDataParser.BufAppend` | MTConnect/thirdparty/httplib/httplib.h:4031-4047 | The text in the buffer, moved to the front in place, followed by the new data |
| `MultipartParser.MultipartFormDataParser.BufErase` | MTConnect/thirdparty/httplib/httplib.h:4049 | The buffered text without its front |
| `Text.FindInPrefix` | MTConnect/thirdparty/httplib/httplib.h:4008-4029 | A first occurrence stays the first when text is appended; a new one reaches past the old end |
| `SocketOwnership.AssertionsHold` | MTConnect/thirdparty/httplib/httplib.h:5976-6006 | In every interleaving of any number of `send` and `stop` calls the assertions of `shutdown_ssl`, `close_socket` and `send` hold |
| `SocketOwnership.OnlyOwnerCloses` | MTConnect/thirdparty/httplib/httplib.h:6044-6131 | A socket with requests in flight is closed only by the thread that holds `request_mutex_` |
| `SocketOwnership.Exclusion` | MTConnect/thirdparty/httplib/httplib.h:6044-6131 | One thread at a time is inside a section guarded by `socket_mutex_`, and all requests in flight are one thread's |
| `SocketOwnership.RedirectsBounded` | MTConnect/thirdparty/httplib/httplib.h:3732-3755 | A thread's calls nest at most `redirect_count_` deep |
| `SocketOwnership.SomeoneCanStep` | MTConnect/thirdparty/httplib/httplib.h:6044-6131 | No deadlock: while a call is in progress, the owner of a mutex, or else the caller, can go on |
| `SocketOwnership.StopHonoured` | MTConnect/thirdparty/httplib/httplib.h:7053-7074 | A `stop` during a request that waits for no redirect and makes none leaves the socket closed in the first state with no request in flight and `socket_mutex_` free, whatever the other threads do |
| `SocketOwnership.StopLasts` | MTConnect/thirdparty/httplib/httplib.h:7053-7074 | After a `stop` during a request, with redirects too, the socket is closed when no request is in flight, if no send has reset the flag in between |
| `SocketOwnership.StopCloses` | MTConnect/thirdparty/httplib/httplib.h:7053-7074 | A `stop` that finds no request in flight has the socket closed when it comes to unlock, whatever the other threads do meanwhile |
| `SocketOwnership.SocketIsSettled` | MTConnect/thirdparty/httplib/httplib.h:6044-6131 | In every reachable state: at the unlock of a `stop` the socket is closed, or a request is in flight and told to close it; a send unlocks with a closed socket after a response that asks for that, and at its end if it failed, was stopped, or keeps no connection; it goes into the exchange with an open one |
| `SocketAlone.RequestAlone` | MTConnect/thirdparty/httplib/httplib.h:6044-6131 | A send on a client that nobody else uses, with the redirects it follows and the stops its callbacks make: exactly what it makes of socket and flag, and its result; everything else is as before |
| `SocketAlone.SendAlone` | MTConnect/thirdparty/httplib/httplib.h:6044-6131 | The same for a send anywhere in the calls of its thread, whatever the other threads are in the middle of |
| `SocketAlone.StaysOpen` | MTConnect/thirdparty/httplib/httplib.h:6105-6131 | After such a send the socket is open if and only if it succeeded, the connection is kept alive, the last response did not ask for it to be closed and no callback stopped the client since the last redirect |
| `SocketAlone.IdleStop` | MTConnect/thirdparty/httplib/httplib.h:7053-7074 | An uninterrupted `stop` sets the flag if a request is in flight, closes the socket if not, and does nothing else |
| `SocketOwnership.OnlyRedirectResets` | MTConnect/thirdparty/httplib/httplib.h:6047-6052 | While requests are in flight only a send they make themselves, through a redirect, can reset the flag |
| `SocketForgotten.StopForgotten` | MTConnect/thirdparty/httplib/httplib.h:6206-6210 | A run in which a same-host redirect makes a `stop` come to nothing: the socket is open at the end |
| `SocketOwnership.StepKeeps` | MTConnect/thirdparty/httplib/httplib.h:6044-6131 | Every statement of every thread keeps the invariant of locks, counters and owners |
| `SampleLedger.Ledger` | ModBus/src/Sample.cpp:76-134 | In every interleaving of statements, the values pushed to a column are published_1, lost_1, published_2, lost_2, ... and the buffer; round k's published values are in batch k, its lost values those pushed between its copy and its clear |
| `SampleBodies.AtomicBodies` | ModBus/src/Sample.cpp:76-134 | With atomic loop bodies nothing is lost, all columns of a batch are equally long, and its begin time is that of the reading that gave its first row |
| `SampleBodies.NothingIsLost` | ModBus/src/Sample.cpp:76-134 | Atomic bodies are a run of the statement-level system, and in its ledger no round loses anything: the values pushed to a column are those of the batches and the buffer |
| `SampleBodies.InterleavingLoses` | ModBus/src/Sample.cpp:115-124 | An interleaving that loses a value and leaves columns of different lengths |
| `SampleLedger.RunKeeps` | ModBus/src/Sample.cpp:76-134 | Every schedule keeps the ledger of every column |
| `SampleBodies.SampleBody` | ModBus/src/Sample.cpp:78-92 | An undisturbed sampling appends one value to every column, and sets the begin time if the buffer was empty |
| `SampleBodies.UploadBody` | ModBus/src/Sample.cpp:110-130 | An undisturbed upload publishes the buffer with its begin time and empties it |
| `SampleRuns.ReadingsAreAccounted` | ModBus/src/Sample.cpp:76-134 | In every interleaving, the values of the rows read are, column by column and in order, those published and lost round by round, those in the buffer, and the one not pushed yet |
| `SampleRuns.TimesAreTaken` | ModBus/src/Sample.cpp:82-87 | In every interleaving, the begin time is the last one taken and every batch has one of the times taken |
| `SampleRuns.OneTimeAnUpload` | ModBus/src/Sample.cpp:82-87 | The time is taken at most once more often than uploads raised the flag |
| `SampleRuns.ReturnsWhenTold` | ModBus/src/Sample.cpp:76-134 | A task ends exactly when it finds the terminate event set at its wait; until then it can always go on, the sampling one if the row read has a value for each id |
| `SampleRuns.SamplerEnds` | ModBus/src/Sample.cpp:76-96 | With the event set, the sampling task ends from anywhere, after a bounded number of statements |
| `SampleRuns.UploaderEnds` | ModBus/src/Sample.cpp:105-134 | So does the uploading task |
| `FlowTable.TableIsGroupBy` | flow_collection/ndpi/pcap_to_flows.c:335-537 | Below the flow limit the table has one record for each 5-tuple of the accepted packets (which these are, FlowsAreTuples says from their fields), and each record and the global counters are the group's and the whole's totals modulo the width of their fields, with first and last times and extremes |
| `FlowTable.FlowsAreTuples` | flow_collection/ndpi/pcap_to_flows.c:335-429 | From the fields of the packets alone: the flows of a capture are the 5-tuples of its counted packets, and the program exits exactly when these are more than 20 million |
| `FlowTable.OnePacket` | flow_collection/ndpi/pcap_to_flows.c:335-537 | The table after one packet, from its fields: one record under addresses, protocol and ports, or none if the packet is too short, a later fragment or not IPv4 |
| `FlowTable.TwoPackets` | flow_collection/ndpi/pcap_to_flows.c:335-537 | Two counted packets make one record if and only if addresses and protocol agree, and the ports where both have some; else two |
| `FlowTable.FieldsGive` | flow_collection/ndpi/pcap_to_flows.c:348-376 | UDP with 8 and TCP with 20 bytes behind the IP header have their own ports, other packets 0; a total length below the header's wraps and counts as long |
| `FlowTable.ExitsAtLimit` | flow_collection/ndpi/pcap_to_flows.c:382-386 | The program ends at the limit exactly when there are more than MAX_NDPI_FLOWS 5-tuples |
| `FlowTable.Capture.PacketCallback` | flow_collection/ndpi/pcap_to_flows.c:605-630 | One packet does to the search tree, the records and the counters what `Process` does to the table |
| `FlowTable.Capture.PcapLoop` | flow_collection/ndpi/pcap_to_flows.c:838 | A whole capture from the empty state: the table of all its packets |
| `FlowTable.Capture.GetNdpiFlow` | flow_collection/ndpi/pcap_to_flows.c:335-429 | The packet's flow, found or inserted under the key that FieldsGive explains; null when the packet is not counted or the limit is hit |
| `FlowTable.TSearchInserts` | flow_collection/ndpi/pcap_to_flows.c:378-421 | An insertion changes what a search finds for the new 5-tuple only |
| `Flow.WrapsAreModulo` | flow_collection/ndpi/pcap_to_flows.c:491-519 | The counters wrap modulo 2^16, 2^32 and 2^64 |
| `Flow.NodeCmpOrders` | flow_collection/ndpi/pcap_to_flows.c:154-165 | `node_cmp` is a total order in which flows are the same exactly when their 5-tuples are |
| `Flow.SummarizesNext` | flow_collection/ndpi/pcap_to_flows.c:491-519 | Counting a packet in keeps a record the summary of its group |
| `Flow.InterArrivalsTelescope` | flow_collection/ndpi/pcap_to_flows.c:432-437 | The inter-arrival times sum up to last minus first plus 2^64 for each step back in time; so they telescope exactly when times never go back |
| `Flow.PrintedDuration` | flow_collection/ndpi/pcap_to_flows.c:245-247 | The printed microseconds differ from the true ones by a multiple of 2^32, and agree exactly when both times are in one window of 2^32 microseconds |
| `ChunkedTransfer.RoundTrip` | MTConnect/thirdparty/httplib/httplib.h:3643-3721 | Any writes followed by `done` are read back as exactly their concatenation, and the stream is consumed to its end (section 4.1 of RFC 7230) |
| `ChunkedTransfer.ReadContentChunked` | MTConnect/thirdparty/httplib/httplib.h:3422-3460 | However the connection cuts up the bytes, what is delivered, what is left and the answer are what `Dechunk` says; failures of connection or receiver only make it fail |
| `ChunkedTransfer.WithoutDone` | MTConnect/thirdparty/httplib/httplib.h:3648-3672 | Writes without `done` are delivered and then reading fails |
| `ChunkedTransfer.EmptyWriteStops` | MTConnect/thirdparty/httplib/httplib.h:3651-3654 | A write of nothing ends the writer's loop without a terminator |
| `ChunkedTransfer.ChunkBehindWrites` | MTConnect/thirdparty/httplib/httplib.h:3432-3451 | What is read of a chunk with any text behind its data, behind any number of chunks |
| `ChunkedTransfer.WrongSeparatorAccepted` | MTConnect/thirdparty/httplib/httplib.h:3444-3459 | Behind any number of chunks, reading ends with a chunk's data, successfully and without a terminator, exactly when a line other than CRLF follows the data |
| `ChunkedTransfer.WriteContentChunked` | MTConnect/thirdparty/httplib/httplib.h:3643-3721 | The provider is called while it has data and the server is not shutting down; the output is what the calls add up to; a refusal cancels, a failed write fails |
| `ChunkedTransfer.DataSink.Write` | MTConnect/thirdparty/httplib/httplib.h:3651-3672 | One write: size line, data, CRLF; nothing for an empty write; the offset advances |
| `ChunkedTransfer.DataSink.Finish` | MTConnect/thirdparty/httplib/httplib.h:3674-3701 | `done`: the terminator is written and no more data asked for |
| `ChunkedTransfer.ReadContentWithLength` | MTConnect/thirdparty/httplib/httplib.h:3370-3390 | The next bytes are delivered up to the length, or what there is of them; the receiver or a progress callback may stop it |
| `ChunkGrammar.CompleteExactly` | MTConnect/thirdparty/httplib/httplib.h:3422-3460 | A text is read to its end if and only if it is chunks with any size lines that `strtoul` takes for their lengths, a size of zero and an empty line; then exactly their data is delivered and what follows is left |
| `ChunkGrammar.SeparatorExactly` | MTConnect/thirdparty/httplib/httplib.h:3444-3446 | It is taken for complete without its terminator if and only if a line other than CRLF follows a chunk's data |
| `ChunkGrammar.NoSizeFails` | MTConnect/thirdparty/httplib/httplib.h:3426-3436 | A line that is no number or the largest one fails |
| `ChunkGrammar.ZeroEnds` | MTConnect/thirdparty/httplib/httplib.h:3438-3455 | A size of zero ends the body, with success if an empty line follows; trailers are not read |
| `ChunkGrammar.CutOffFails` | MTConnect/thirdparty/httplib/httplib.h:3440-3442 | Data that is cut off is delivered, and the reading fails |
| `ChunkGrammar.AskedAgain` | MTConnect/thirdparty/httplib/httplib.h:3648-3672 | The provider is asked again exactly after a write of something |
| `Hexadecimal.NumberReads` | MTConnect/thirdparty/httplib/httplib.h:3432-3434 | Any number behind blanks, sign and 0x, with digits of either case: too large becomes ULONG_MAX, negative wraps |
| `Hexadecimal.NoNumberReads` | MTConnect/thirdparty/httplib/httplib.h:3432-3434 | Text without a digit there is no number |
| `Hexadecimal.FromIToHex` | MTConnect/thirdparty/httplib/httplib.h:1947-1955 | The digits of a number in base 16, the most significant first |
| `Hexadecimal.HexRoundTrip` | MTConnect/thirdparty/httplib/httplib.h:3432-3434 | `strtoul` in base 16 reads back what `from_i_to_hex` wrote, whatever follows that is neither digit nor x |
| `Streams.SocketStream.Read` | MTConnect/thirdparty/httplib/httplib.h:4736-4780 | A read delivers the next bytes of all that is pending and leaves the others, buffered or not; it fails only with the connection |
| `Streams.SocketStream.Conserves` | MTConnect/thirdparty/httplib/httplib.h:4736-4780 | Over any reads, bytes delivered followed by bytes pending are the bytes sent |
| `Streams.SocketStream.ReadHeld` | MTConnect/thirdparty/httplib/httplib.h:4744-4755 | Bytes held in the buffer go first |
| `Streams.SocketStream.ReadFill` | MTConnect/thirdparty/httplib/httplib.h:4757-4776 | A short read fills the buffer and holds what is not asked for |
| `Streams.SocketStream.ReadDirect` | MTConnect/thirdparty/httplib/httplib.h:4777-4779 | A long read goes to the socket directly |
| `Streams.StreamLineReader.GetLine` | MTConnect/thirdparty/httplib/httplib.h:2240-2264 | The line is exactly the bytes through the first newline or the end of input, whichever buffer holds it |
| `Streams.StreamLineReader.Append` | MTConnect/thirdparty/httplib/httplib.h:2266-2277 | A byte is appended to the line, in the fixed buffer or the growing one; the assertion on the terminator holds |
| `ModelSearch.IndexAgrees` | ModBus/src/Utils.cpp:8-95 | The index has exactly the ids that a plain search of the model finds; of several places with an id it means the first in the order of the walk; its pointer is that place, unless the walk is astray there, and then it resolves to nothing |
| `ModelSearch.PointerResolves` | ModBus/src/Utils.cpp:46-62 | A pointer of the index leads to its id exactly when no device or component above the place has configs and no data items |
| `ModelSearch.AllResolve` | ModBus/src/Utils.cpp:29-95 | If every device and component with configs and components has data items, every pointer resolves |
| `ModelSearch.LosesItem` | ModBus/src/Utils.cpp:54-62 | A device with configs, no data items and a component with a data item: the item's pointer leads nowhere |
| `ModelSearch.RootVisitsOrdered` | ModBus/src/Utils.cpp:8-27 | The walk comes to configs before data items before components, each in order |
| `ModelIndex.PathParse.RootParse` | ModBus/src/Utils.cpp:8-27 | `rootParse` builds the index of all visits, first one wins, and collects the channels of all devices; with nothing excluded, what OPC-UA/src/Utils.cpp lines 11-47 indexes, with its sampled ids and identities |
| `ModelIndex.IdentitiesExactly` | OPC-UA/src/Utils.cpp:70-80 | The ids with an identity are exactly those of the devices' own data items that have one; data items of components have none |
| `ModelIndex.IdentityIsFirst` | OPC-UA/src/Utils.cpp:70-80 | Of several the first identity in the order of the devices and their items counts |
| `ModelIndex.ChannelsOfMore` | ModBus/src/Utils.cpp:33-44 | Exactly the configs of type SAMPLE_CHANNEL are collected, in order |
| `ModelIndex.DeviceChannelsOfMore` | ModBus/src/Utils.cpp:8-44 | Of all devices, in order |
| `ModelIndex.PathParse.DevicesParse` | ModBus/src/Utils.cpp:29-66 | A device's visits are indexed, and its channels, their ids and its data items' identities collected |
| `ModelIndex.PathParse.ComponentsParse` | ModBus/src/Utils.cpp:68-95 | A component's visits are indexed, at any depth |
| `ModelIndex.PathParse.ListsParse` | ModBus/src/Utils.cpp:70-87 | Configs and data items, with the pushes and pops of the shared pointer |
| `ModelSearch.Get` | ModBus/src/QueryRequest.cpp:40-84 | Code 401 exactly for ids absent from the index; each found id with its operation, get_value by default; a pointer that resolves to nothing ends the request |
| `WorkerPool.EachJobOnce` | MTConnect/thirdparty/httplib/httplib.h:572-596 | In every run the jobs of the calls of `enqueue` are taken in the order of the calls, and each of them is in exactly one place: queued, run by one worker, or finished once |
| `WorkerPool.EnqueuedAreHanded` | MTConnect/thirdparty/httplib/httplib.h:550-554 | The jobs that have come into the queue are exactly those of the `enqueue` calls, in their order; nothing else changes that list |
| `WorkerPool.ShutdownWaits` | MTConnect/thirdparty/httplib/httplib.h:556-570 | With at least one worker, `shutdown` returns only when every job of an `enqueue` call made before it is finished |
| `WorkerPool.JobsGetDone` | MTConnect/thirdparty/httplib/httplib.h:572-596 | With at least one worker, the statements in progress lead to a state in which every job is finished |
| `WorkerPool.SpuriousWakeup` | MTConnect/thirdparty/httplib/httplib.h:580-591 | A wakeup without a notification takes a job, leaves a pool that is shut down, or changes nothing |
| `WorkerPool.NoWorkers` | MTConnect/thirdparty/httplib/httplib.h:540-545 | With no worker, `shutdown` returns and the job was never run |
| `WorkerPool.SomebodyCanStep` | MTConnect/thirdparty/httplib/httplib.h:578-591 | No lost wakeup and no deadlock: while there is a job for a live worker or a shutdown in progress, somebody can go on |
| `WorkerPool.WorkShrinks` | MTConnect/thirdparty/httplib/httplib.h:556-591 | Every statement that is not a new call or a spurious wakeup leaves less to do, so `shutdown` returns when no more jobs come |
| `WorkerPool.ShutdownReturns` | MTConnect/thirdparty/httplib/httplib.h:556-570 | From any state after shutdown was called there is a run to its return |
| `WorkerPool.RunKeeps` | MTConnect/thirdparty/httplib/httplib.h:550-596 | Every run keeps the invariant of mutex, queue, jobs and wakeups |
| `RegisterCodec.ReadsBack32` | ModBus/src/SetRequest.cpp:205-222 | Written and read big-endian a 32-bit value comes back; little-endian, with its 16-bit words reversed |
| `RegisterCodec.ReadsBack64` | ModBus/src/SetRequest.cpp:224-243 | The same for 64-bit values |
| `RegisterCodec.LittleEndianReadsBack` | ModBus/src/Utils.cpp:162-181 | Little-endian, a value comes back exactly when its words read the same in both orders |
| `RegisterCodec.Palindromes32` | ModBus/src/SetRequest.cpp:213-221 | Reversing the words of a 32-bit value is an involution, with the equal-word values as fixed points |
| `RegisterCodec.Palindromes64` | ModBus/src/SetRequest.cpp:235-241 | The same for 64-bit values |
| `RegisterCodec.AllReadBack32` | ModBus/src/Utils.cpp:136-147 | Values written one behind the other are read back one by one |
| `RegisterCodec.AllReadBack64` | ModBus/src/Utils.cpp:162-181 | The same for 64-bit values |
| `RegisterCodec.StartIsPushedOut` | ModBus/src/Utils.cpp:166-179 | Eight 8-bit shifts push the start value out: the uninitialized one does not matter |
| `RegisterCodec.SetValue32` | ModBus/src/SetRequest.cpp:205-222 | The two registers written for UINT32, INT32 and FLOAT patterns, and no others |
| `RegisterCodec.SetValue64` | ModBus/src/SetRequest.cpp:224-243 | The four registers written for UINT64 and INT64, and no others |
| `RegisterCodec.ReadUInt32` | ModBus/src/Utils.cpp:136-147 | Each element is the value of its four bytes |
| `RegisterCodec.ReadUInt64` | ModBus/src/Utils.cpp:162-181 | Each element is the value of its eight bytes, whatever the array held before |
| `EventSemaphore.Refines` | ModBus/include/Sample.h:123-171 | In every interleaving of waits and sets, a manual-reset event is signalled (flag, semaphore, or a waiter about to set the flag) exactly when created so or set |
| `EventSemaphore.StepRefines` | ModBus/include/Sample.h:123-171 | Without resets, each step keeps the abstract event, and a set sets it |
| `EventSemaphore.LaterWaitsReturn` | ModBus/include/Sample.h:127-135 | Once a wait has returned WAIT_OBJECT_0, every wait that tests the flag before the next reset does too, whatever happened earlier |
| `EventSemaphore.LeftBehind` | ModBus/include/Sample.h:136-140 | A waiter without timeout that waits for the semaphore stays there until another set, though the flag be set |
| `EventSemaphore.SetIsSeen` | ModBus/include/Sample.h:123-171 | One set ends all tasks whose waits have timeouts: when one wait begun after it is over and every thread has gone on once, the flag is set, and every later wait returns WAIT_OBJECT_0 |
| `EventSemaphore.OneSetForEach` | ModBus/include/Sample.h:136-156 | All waiters without timeout can leave the semaphore with m more sets if and only if there are at most m more of them than the semaphore has |
| `EventSemaphore.OneOfTwoWakes` | ModBus/include/Sample.h:136-156 | Of two such waiters one set wakes one |
| `EventSemaphore.ResetUnsets` | ModBus/include/Sample.h:175-182 | A reset on its own unsets the event however often it was set, unless a waiter is still about to set the flag |
| `EventSemaphore.WaitFindsFlag` | ModBus/include/Sample.h:127-135 | A wait that finds the flag returns WAIT_OBJECT_0; an event without manual reset is unset by it, flag and semaphore |
| `EventSemaphore.WaitTakes` | ModBus/include/Sample.h:136-156 | A wait that finds the semaphore takes one from it; a manual-reset event gets its flag |
| `EventSemaphore.WaitGivesUp` | ModBus/include/Sample.h:136-153 | A wait that finds neither stays until there is one, or returns WAIT_TIMEOUT or WAIT_FAILED |
| `EventSemaphore.TwoReturnFromOneState` | ModBus/include/Sample.h:127-156 | An event without manual reset that is created set lets two waits return without ever being set |
| `EventSemaphore.SemGetTimeMillsecs` | ModBus/include/Sample.h:72-85 | The deadline is exactly now plus the milliseconds; the nanosecond sum fits 32 bits; the nanoseconds are in range exactly for the waits stated |
| `HeaderBlock.HeaderRoundTrip` | MTConnect/thirdparty/httplib/httplib.h:3331-3368 | Reading what `write_headers` emits gives the same headers in order and ends at the block's end, for plain headers (section 3.2 of RFC 7230) |
| `HeaderBlock.BlockIsReread` | MTConnect/thirdparty/httplib/httplib.h:3545-3557 | Headers that `set_header` lets in cannot break out of their lines: each is parsed from its own line, whatever it is |
| `HeaderBlock.ComesBack` | MTConnect/thirdparty/httplib/httplib.h:3301-3329 | A header comes back exactly when its value is not empty, has no blanks around it and is not changed by decoding |
| `HeaderBlock.HeaderReads` | MTConnect/thirdparty/httplib/httplib.h:3301-3329 | How any header line with a colon-free key is parsed |
| `HeaderBlock.LongLineFails` | MTConnect/thirdparty/httplib/httplib.h:3356 | A line over the limit ends the reading |
| `HeaderBlock.AnyBlockReads` | MTConnect/thirdparty/httplib/httplib.h:3331-3368 | Any block of lines is read line by line: to its end at an empty line, or it fails at the end of everything, with the headers so far |
| `HeaderBlock.LineReads` | MTConnect/thirdparty/httplib/httplib.h:3301-3329 | Any line with a colon: the key before the first one, the value without blanks, decoded; no header if nothing is left of it |
| `HeaderBlock.NoColonReads` | MTConnect/thirdparty/httplib/httplib.h:3301-3329 | A line without a colon is no header |
| `HeaderBlock.LongLineStops` | MTConnect/thirdparty/httplib/httplib.h:3356 | A line over the limit ends the reading wherever it stands, with the headers before it |
| `HeaderBlock.NulHides` | MTConnect/thirdparty/httplib/httplib.h:3545-3557 | Of keys and values only what stands before a NUL is looked at and written |
| `HeaderBlock.CiLessOrders` | MTConnect/thirdparty/httplib/httplib.h:303-313 | Header keys are ordered so that two are the same exactly when they differ in letter case only |
| `Multimap.EmplaceSorts` | MTConnect/thirdparty/httplib/httplib.h:315-317 | An insertion keeps the map in the order of its keys |
| `Multimap.EmplaceIsLast` | MTConnect/thirdparty/httplib/httplib.h:315-317 | The new entry is the last of those with its key, and nothing else changes |
| `HeaderBlock.ReadHeaders` | MTConnect/thirdparty/httplib/httplib.h:3331-3368 | Over any connection, the headers read are those of the pending text; lines without CRLF are skipped |
| `HeaderBlock.WriteHeaders` | MTConnect/thirdparty/httplib/httplib.h:3545-3557 | One line for each header and an empty line, and the length written; a write that fails ends it with a front of that text |
| `HeaderBlock.ParseHeader` | MTConnect/thirdparty/httplib/httplib.h:3301-3329 | Key before the first colon, value without blanks, decoded |
| `HeaderBlock.SetHeader` | MTConnect/thirdparty/httplib/httplib.h:4570-4575 | Headers with CR or LF are not taken; header lists without them stay so |
| `HeaderBlock.HasCrlf` | MTConnect/thirdparty/httplib/httplib.h:4264-4271 | CR or LF before the first NUL |
| `Percent.RoundTrip` | MTConnect/thirdparty/httplib/httplib.h:2070-2089 | `decode_url(encode_query_param(s), p) == s` for every byte string and both p (section 2.1 of RFC 3986) |
| `Percent.EncodedInjective` | MTConnect/thirdparty/httplib/httplib.h:2070-2089 | Different byte strings have different encodings |
| `Percent.EncodeQueryParam` | MTConnect/thirdparty/httplib/httplib.h:2070-2089 | The encoding, byte by byte |
| `Percent.DecodeUrl` | MTConnect/thirdparty/httplib/httplib.h:2123-2158 | The loop computes the decoding that DecodedByToken describes, for every text and both settings |
| `PercentText.DecodedByToken` | MTConnect/thirdparty/httplib/httplib.h:2123-2158 | A text is decoded piece by piece: %XX to its byte with digits of either case, %uXXXX to UTF-8, plus signs to blanks if so wished, and everything else, a percent sign without its digits too, to itself |
| `PercentText.EveryTextIsTokens` | MTConnect/thirdparty/httplib/httplib.h:2123-2158 | Every text is made of such pieces, so that this is all texts |
| `PercentText.WithoutPercent` | MTConnect/thirdparty/httplib/httplib.h:2150-2154 | Without percent signs the length stays, and only plus signs change, to blanks |
| `PercentText.FormRoundTrip` | MTConnect/thirdparty/httplib/httplib.h:2070-2089 | Form encoding, with blanks as plus signs, is undone when plus signs are read as blanks, for every byte string |
| `PercentText.Utf8ReadsBack` | MTConnect/thirdparty/httplib/httplib.h:1957-1987 | `to_utf8` writes what reads back as the code, in the shortest form, and nothing for a surrogate (section 3 of RFC 3629) |
| `PercentText.EscapesExactly` | MTConnect/thirdparty/httplib/httplib.h:2070-2089 | Letters, digits and nine marks are sent as they are, every other byte as % and its two capital digits |
| `QueryText.QueryRoundTrip` | MTConnect/thirdparty/httplib/httplib.h:3757-3790 | `parse_query_text(params_to_query_str(P))` is P with repeated pairs collapsed, in order, for non-empty keys of pass-through characters and arbitrary values |
| `QueryText.CollapsedIs` | MTConnect/thirdparty/httplib/httplib.h:3770-3774 | Collapsing keeps every pair, once |
| `QueryText.AnyTextParses` | MTConnect/thirdparty/httplib/httplib.h:3769-3790 | Any query text: its texts between ampersands, trimmed, each once, add theirs one after the other |
| `QueryText.PartsAdd` | MTConnect/thirdparty/httplib/httplib.h:3776-3788 | What one of them adds: of its parts between equality signs the first is the key and the last of the others the value, both decoded with plus signs as blanks; a text of blanks adds nothing |
| `QueryText.SplitReads` | MTConnect/thirdparty/httplib/httplib.h:2194-2212 | Splitting gives back the texts between delimiters, trimmed, without empty ones |
| `QueryText.LessOrders` | MTConnect/thirdparty/httplib/httplib.h:317 | The order of parameter keys tells all keys apart |
| `QueryText.ParseQueryText` | MTConnect/thirdparty/httplib/httplib.h:3769-3790 | Parameters of any text: pieces between ampersands not seen before, with a key |
| `QueryText.ParamsToQueryStr` | MTConnect/thirdparty/httplib/httplib.h:3757-3767 | The text of a parameter list |
| `QueryText.Split` | MTConnect/thirdparty/httplib/httplib.h:2194-2212 | The trimmed non-empty pieces between delimiters |
| `QueryText.TrimRange` | MTConnect/thirdparty/httplib/httplib.h:2178-2187 | Both ends of a range move over blanks; when the left one runs past the right one nothing is left |
| `Base64.RoundTrip` | MTConnect/thirdparty/httplib/httplib.h:1991-2017 | Decoding by groups undoes the encoding for every input (section 4 of RFC 4648) |
| `Base64.Base64Encode` | MTConnect/thirdparty/httplib/httplib.h:1991-2017 | The program's loops, with 32-bit wrapping, write the encoding by groups, of length 4 times the number of groups |
| `Base64.SameDigits` | MTConnect/thirdparty/httplib/httplib.h:2001-2007 | The wrapped accumulator gives the same digits as one without bounds |
| `Base64.WriteSextets` | MTConnect/thirdparty/httplib/httplib.h:2003-2006 | After each byte the bit counter is -6, -4 or -2 and all complete sextets are written |
| `Base64.DigitsAreEncoded` | MTConnect/thirdparty/httplib/httplib.h:2010-2014 | Complete digits, the left-over digit and the padding make up the encoding by groups |
| `Base64.GroupIsNumber` | MTConnect/thirdparty/httplib/httplib.h:1991-2017 | The four sextets of a group are the digits of the 24-bit number that its three bytes are |
| `Base64.LetterIsLookedUp` | MTConnect/thirdparty/httplib/httplib.h:1992-1993 | The letters of the alphabet (section 4 of RFC 4648) |
| `Base64.OtherIsLookedUp` | MTConnect/thirdparty/httplib/httplib.h:1992-1993 | Its digits, its two marks and the padding |
| `PathWalk.IsValidPath` | MTConnect/thirdparty/httplib/httplib.h:2033-2068 | True exactly when the stack walk over the components never leaves the root; all loops end |
| `PathWalk.WalkStays` | MTConnect/thirdparty/httplib/httplib.h:2048-2058 | The walk stays below the root exactly when no prefix has more steps up than down |
| `PathWalk.ComponentsAreNames` | MTConnect/thirdparty/httplib/httplib.h:2037-2046 | The components of a path are the names in it, however many slashes are between them |
| `SampleRow.AlignedExactly` | ModBus/src/QueryRequest.cpp:210-315 | Row element i is the first value read for id i, for all i, if and only if every id but the last contributes one value and the last at least one |
| `SampleRow.ContributionExactly` | ModBus/src/QueryRequest.cpp:210-315 | What one id contributes: nothing if unknown, without methods, or if its first method does not read; else as many values as are whole in what is read, bits as one array |
| `SampleRow.QuerySample` | ModBus/src/QueryRequest.cpp:210-315 | The concatenation of the ids' contributions in order; only the first method is looked at |
| `SampleRow.PushRow` | ModBus/src/Sample.cpp:88-90 | Value i of a row goes to column i |
| `SampleRow.SampleRows` | ModBus/src/Sample.cpp:78-134 | In a run with one value for each id, with uploads in between, the columns of the buffer and of every batch have values of their own id only, and one length |

## Left out

- MQTT, HTTP and OPC-UA traffic, libmodbus, nDPI detection, TLS, files, processes, thread creation, sleeping and
  logging: foreign code or input and output.
- The regular-expression engine: only the Content-Disposition expression is modelled, by a matcher of its own.
- The value of that expression's `filename*` part, which the code does not use.
- ChunkedTransfer.WriteContentChunked: compression; the compressor is the one that passes data on and never fails.
- ChunkedTransfer.DataSink.Write: the same, so that the payload is the data.
- ChunkedTransfer.DataSink.Finish: the same, so that there is nothing to flush before the terminator.
- The skipping of over-long content.
- SocketOwnership.RedirectsBounded: redirects to other hosts use other clients and are not modelled; digest
  authentication, which also sends again, is compiled only with OpenSSL.
- SampleLedger.Ledger: a statement that goes over a column is one step; tearing inside a JSON value is not modelled.
- FlowTable.TableIsGroupBy: the sum of inter-arrival times is kept exactly, where the program has a double.
- ModelIndex.PathParse.RootParse: the model is a tree of records; JSON of another shape, on which the program throws,
  has no counterpart, and pointers are lists of tokens, not their text. What the OPC-UA adapter takes from a METHOD
  config (its name and parameters) is not modelled.
- ModelSearch.Get: the reading of the device behind a found item.
- WorkerPool.ShutdownWaits: `shutdown` is called once; jobs end.
- RegisterCodec.ReadUInt64: at most 96 bytes, beyond which the program reads past its buffer of 100.
- RegisterCodec.SetValue32: the conversion of a JSON value to a number or a float.
- EventSemaphore.Refines: named semaphores. Of events without manual reset, which are in the same step system, single
  waits and the run `TwoReturnFromOneState` are stated, but no law of all runs.
- SampleRuns.SamplerEnds: an answer of the device with fewer values than there are ids, on which the program reads past
  the row.
- SampleRow.QuerySample: values are told apart by where they come from; what the device holds, the result of a failed
  read, a datatype the program does not know, and rows that are too short, which the program reads past their end, are
  not modelled.
- Percent.DecodeUrl: NUL characters are characters like others, as the code handles them.
- HeaderBlock.WriteHeaders: the buffer of `write_format`, and streams that take only a part of what is written.
- Copies of modelled code in the other adapters, and shallow request plumbing.
