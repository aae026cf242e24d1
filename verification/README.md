# Verification of the network reader, the service protocols and the Modbus dissector

A Dafny model of the four parts of the program in which input arrives in arbitrary pieces or interleavings,
with proofs that the outcome does not depend on how:

- **The HTTP/1.1 client** (`httprequest.h`). A response is parsed from one buffer that every receive extends: header
  lines, then a chunked body (section 4.1 of RFC 7230), a body of announced length, or a body that lasts until the
  peer disconnects. The reader can stop and resume at any byte. Beside it: the request it writes, the URL splitter,
  `urlEncode` and form bodies.
- **The command socket of a Unix service** (`qtservice/src/qtservice_unix.cpp`). Each connection has a cached text
  that is cut at CRLF; each line is executed under the service flags and answered. At the other end is the controller.
- **The Modbus/TCP dissector** (`modbus.cpp`). A payload is split into frames; what is reported of them gathers in the
  object until a payload ends exactly with a frame.
- **The Windows service** (`qtservice/src/qtservice_win.cpp`). The main thread, the dispatcher thread and the thread of
  `serviceMain` synchronise over two semaphores, a mutex, a wait condition, an event queue and a status word.

## Layout

| file | content |
|---|---|
| `Text.dfy` | strings: find, split, join, trim, numbers in digits, and their inverses |
| `HttpReader.dfy` | the state of the response reader and what one receive does to it, as functions |
| `HttpReaderLoops.dfy` | the same reader as a class updated in place by the nested loops of the source |
| `HttpSegmentation.dfy`, `HttpConservation.dfy` | independence of the receives; every byte accounted for |
| `HttpChunked.dfy`, `HttpContentLength.dfy` | the two body framings, against encoders and boundaries |
| `HttpLargeChunks.dfy` | what large chunk sizes do, and a decoder for arbitrary chunked streams |
| `HttpHeaders.dfy`, `HttpResponses.dfy`, `HttpRequest.dfy` | header sections, whole responses, the request read back |
| `HttpNumbers.dfy`, `HttpRefusals.dfy` | the number texts of `stoul` and `stoi`; known header lines by their text, and responses that fail |
| `UrlEncoding.dfy`, `Url.dfy` | `urlEncode` against percent-decoding and UTF-8; the URL splitter |
| `UnixService.dfy`, `UnixStreams.dfy` | the command server as a class; streams, interleavings and the controller |
| `Modbus.dfy`, `ModbusStreams.dfy`, `ModbusReports.dfy` | the dissector as a class; framing and runs; the text read back |
| `ModbusQueries.dfy` | what each kind of PDU is reported as, letter for letter, and in the published text |
| `WinService.dfy`, `WinInvariants.dfy`, `WinRuns.dfy` | the interleaved steps; the invariant; theorems over all runs |
| `WinBoundary.dfy` | which controls break the lock-step, and which do not |
| `WinReports.dfy` | what the manager is told, and which callback runs, over whole calls of `handler` |

Where the source updates an object in place, a class does the same (`ResponseReader`, `Request`, `CommandServer`,
`Dissector`); each of its methods is proved equal to a function on values, and the theorems are about that function.
A stream is a `string` whose characters stand for bytes; a history field (`taken`, `consumed`, the histories of the
Windows service) records what happened and influences nothing. `dafny verify dfyconfig.toml` checks everything.

## What turned out false, and when it holds

Some properties one would expect fail on particular inputs. Each is proved with its exact condition:

- The chunk loop does not always end: `std::min<int>` narrows the chunk size, and the size line `100000000` followed by
  one byte keeps it busy for ever, copying nothing (`HttpLargeChunks.ShortestSpin`, `HttpLargeChunks.OneByteSpins`).
  Over every stream and every cut the reader spins, or copies a negative count, if and only if some size line has a
  value above 2^31 - 1 whose last 32 bits are negative as an `int`, or are fewer than the bytes behind the line
  (`HttpLargeChunks.BreaksExactly`); otherwise every iteration that does not leave the loop shortens the buffer.
- Complete chunked bodies are decoded if and only if every chunk size is below 2^31 (`HttpChunked.ChunkedRoundTrip`);
  `HttpChunked.ChunkTooLarge` gives the smallest chunk that cannot be read although it is encoded correctly.
- With more bytes behind the announced body, the body is the announced one if and only if some receive ends exactly
  with it (`HttpContentLength.SurplusKept`): the surplus of the last receive is kept.
- Header names are compared letter for letter, although section 3.2 of RFC 7230 makes them case-insensitive
  (`HttpHeaders.NamesAreExact`, `HttpHeaders.OtherSpelling`).
- A request reads back if and only if neither its headers nor the domain can be mistaken for framing
  (`HttpRequest.RequestReadBack`).
- Percent-decoding undoes `urlEncode` if and only if no byte 0x80-0xBF or 0xF8-0xFF stands where a UTF-8 sequence
  should start (`UrlEncoding.RoundTripExactly`).
- A fresh Unix connection runs the same commands for every cut of a stream if and only if no command comes behind an
  empty line (`UnixStreams.EveryCutRunsAll`); the loop of the slot takes an empty line for the end of the cache.
- A register response is listed if and only if it has at least four registers, a write request if and only if it has
  at least two (`ModbusReports.ReadResponseListed`, `ModbusReports.WriteRequestListed`); shorter ones are taken for a
  query or are too short.
- The lock-step of the Windows service needs a rule of the service manager, though less than the one assumed: sending
  a control that posts an event keeps it, whatever follows, if and only if the start-up call of `handler` is woken or
  the main thread holds the mutex to wake it (`WinBoundary.BoundaryIsExact`). `WinBoundary.RunIntoTheGap` gives a run
  from the start of the process in which any such control is woken by the callback of the start-up.
- A call of `handler` that returns while the service is stopped may report STOPPED once more: the comparison with
  SERVICE_STOPPED and the report are outside the mutex. It reports nothing if and only if the comparison itself saw
  STOPPED (`WinReports.ReturnReports`).

The documentation of `sendCommand` (`qtservice/src/qtservice.cpp`, lines 408-418) promises to send any code; on Windows
the code sends only 0 to 127. The model follows the code.

## Model

| member | source | states |
|---|---|---|
| HttpReader.ChunkStep | httprequest.h:614-653 | an iteration of the model that goes on strictly shortens the buffer; the iteration of the source that neither leaves the loop nor shortens the buffer is marked `EndlessLoop` and ends the model's loop |
| HttpReaderLoops.ResponseReader.ReceiveLoop | httprequest.h:520-668 | the loops, updating their fields in place over any number of receives, reach exactly the state of the reader the theorems are about |
| HttpReaderLoops.ResponseReader.Receive | httprequest.h:527-667 | the same for one receive: header lines first, then the body by its framing |
| HttpReaderLoops.ResponseReader.HeaderLoop | httprequest.h:529-606 | the header loop stops at the empty line, at an exception, or when no line is complete, with all state as specified |
| HttpReaderLoops.ResponseReader.ChunkLoop | httprequest.h:611-657 | the chunk loop, resumed from any state, equals the recursive decoder |
| HttpReaderLoops.ResponseReader.CopyData | httprequest.h:616-625 | one copy inside a chunk, including the narrowing to `int` and its two failures |
| HttpReaderLoops.ResponseReader.NextChunk | httprequest.h:628-651 | one step between chunks: the pending CRLF, the size line, the zero size that ends the body |
| HttpReaderLoops.ResponseReader.ParseFirstLine | httprequest.h:546-569 | the second word of the first line becomes the status, or raises the exception of `std::stoi` |
| HttpReaderLoops.ResponseReader.ParseHeader | httprequest.h:570-605 | every header line is kept; its name and trimmed value have the specified effect |
| HttpReaderLoops.ResponseReader.ParseField | httprequest.h:591-603 | the branches on the two known names, in place, equal the function that CodingLine and LengthHeader state by text |
| HttpReaderLoops.Tokenize | httprequest.h:550-565 | the position loop gives exactly the non-empty pieces between spaces |
| HttpSegmentation.ReadHeadersExtend | httprequest.h:529-606 | stopping anywhere in the header section and resuming with more bytes equals reading on |
| HttpSegmentation.ReadChunksExtend | httprequest.h:611-657 | the same for the chunk loop, from any state, CR and LF apart included |
| HttpSegmentation.ReceiveSplit | httprequest.h:520-668 | from any state, two receives give the state of one receive of both: equal while reading, the same error, the same chunked response; in Content-Length mode only surplus differs |
| HttpSegmentation.AnySegmentation | httprequest.h:520-668 | the same for any number of receives against one receive of the whole stream |
| HttpSegmentation.CutsAgree | httprequest.h:520-668 | any two cuts of a stream give the same outcome, headers and body, except for surplus in Content-Length mode |
| HttpSegmentation.ReceiveGrows | httprequest.h:619-660 | nothing is ever removed from the body |
| HttpConservation.Conservation | httprequest.h:527-661 | after any number of receives the bytes taken, in order, then the buffer, spell the stream received, and the body is exactly the bytes taken as payload |
| HttpConservation.ReceiveAccounts | httprequest.h:527-661 | one receive keeps that account |
| HttpChunked.ReadEncoded | httprequest.h:611-657 | the coding of any chunks is decoded to their concatenation, leaving what follows, if every size fits an `int`, and fails otherwise |
| HttpChunked.ChunkedRoundTrip | httprequest.h:611-657 | the same for a response cut into receives in any way: success if and only if every size fits an `int` |
| HttpChunked.NeverEarly | httprequest.h:638-657 | before the end of the last size line nothing is finished, and the body is a prefix of the data |
| HttpChunked.ChunkTooLarge | httprequest.h:618 | a correctly encoded chunk of 2^31 bytes cannot be read |
| HttpLargeChunks.IterationShortens | httprequest.h:614-653 | an iteration shortens the buffer or leaves the loop, except exactly when a multiple of 2^32 bytes is expected and bytes wait |
| HttpLargeChunks.EndlessIff | httprequest.h:616-626 | in that case, and no other, the source's loop repeats itself: the iteration leaves the state as it is |
| HttpLargeChunks.ReversedIff | httprequest.h:618-619 | a negative count is copied exactly when the last 32 bits of the size are above 2^31 - 1 |
| HttpLargeChunks.LargeReads | httprequest.h:616-626 | with a size above 2^31 - 1 expected the reader breaks exactly when the last 32 bits are negative or fewer than the bytes waiting; otherwise it takes what is there |
| HttpLargeChunks.BreaksExactly | httprequest.h:520-657 | for every stream, malformed ones included, and every cut: the reader breaks if and only if a chunked body has a size line that does so |
| HttpLargeChunks.SmallSizesNeverBreak | httprequest.h:520-657 | never when every size line read is at most 2^31 - 1 |
| HttpLargeChunks.DecodesExactly | httprequest.h:520-657 | whenever the reader does not break, body and outcome are those of a decoder that sees the whole stream at once, for every stream and cut |
| HttpLargeChunks.OneByteSpins | httprequest.h:614-645 | behind any header section with a chunked coding, the size 2^32 and one byte make the loop endless, however cut |
| HttpLargeChunks.ShortestSpin | httprequest.h:614-645 | a complete response that does so |
| HttpChunked.StoulOfDigits | httprequest.h:645 | a number in digits is read as its value, whatever extension follows, or is out of range |
| HttpChunked.PrintedChunk | httprequest.h:645 | every non-empty data has a size line the reader understands |
| HttpContentLength.ExactBody | httprequest.h:658-666 | exactly the announced bytes, cut in any way, are the body and finish the response |
| HttpContentLength.NeverEarly | httprequest.h:658-666 | while a byte of them is missing the reader waits |
| HttpContentLength.StopsAtBoundary | httprequest.h:658-666 | the reader stops at the first end of a receive at or behind the announced length, with everything up to there as body |
| HttpContentLength.SurplusKept | httprequest.h:660-665 | the body is the announced one if and only if a receive ends exactly with it |
| HttpHeaders.ReadBlock | httprequest.h:530-606 | a block of plain lines is read line by line up to the empty line, and fails exactly when a line is refused |
| HttpHeaders.ReadResponseHead | httprequest.h:529-606 | the same from a fresh reader, status line first |
| HttpHeaders.NamesAreExact | httprequest.h:591-598 | a line is one of the known headers if and only if it starts with that name, letter for letter |
| HttpHeaders.OtherSpelling | httprequest.h:591-603 | any name that equals one of the known two only up to case is an ordinary header: the line is kept and nothing else happens |
| HttpHeaders.NamedField | httprequest.h:574-590 | the name of a line is what is before its first colon, the value what is behind it, trimmed |
| HttpHeaders.FramingSelected | httprequest.h:591-611 | in any order of the lines chunked overrides Content-Length; without it the last length delimits the body |
| HttpRefusals.CodingLine | httprequest.h:597-603 | a Transfer-Encoding line sets chunked if and only if its trimmed value is `chunked`, and otherwise throws with exactly that value; nothing else changes but the list of headers |
| HttpRefusals.CodingNamed | httprequest.h:597-603 | the same for a coding written behind a colon and a space |
| HttpRefusals.LengthHeader | httprequest.h:591-596 | a Content-Length line sets the length to the number of its trimmed value; no number, one too large, and one no vector can have raise their own exceptions |
| HttpRefusals.LengthNamed | httprequest.h:591-596 | the same for digits written behind a colon and a space |
| HttpRefusals.RefusedLine | httprequest.h:529-606 | a response in which a line behind acceptable ones throws fails with that exception, whatever follows and however cut |
| HttpRefusals.UnsupportedCoding | httprequest.h:597-603 | any coding other than chunked makes the response fail with exactly that coding |
| HttpRefusals.BadLength | httprequest.h:591-596 | a length that is no number makes the response fail as an invalid argument |
| HttpRefusals.StatusWord | httprequest.h:546-569 | the second word of the first line alone is the status |
| HttpRefusals.RefusedStatus | httprequest.h:567-568 | a second word that is no number, or none an `int` holds, makes the response fail with its exception |
| HttpNumbers.StoulReads | httprequest.h:593 | white space, a sign, a prefix and digits are read as the value, a negative one modulo 2^64, or are out of range |
| HttpNumbers.StoulRefuses | httprequest.h:645 | a text without a digit behind white space and sign is no number |
| HttpNumbers.StoiReads | httprequest.h:568 | the same for `stoi`, in the range of an `int` |
| HttpNumbers.StoiRefuses | httprequest.h:568 | and when it reads no number |
| Text.TrimOf | httprequest.h:580-589 | trimming removes exactly the white space at both ends |
| HttpResponses.StatusIsRead | httprequest.h:546-569 | the status printed in a status line is the status read |
| HttpResponses.ChunkedResponse | httprequest.h:519-670 | a whole chunked response arrives as sent, status, headers and body, whatever the receives, if and only if every size fits an `int` |
| HttpResponses.LengthResponse | httprequest.h:519-670 | a whole response with Content-Length arrives as sent, complete with its last byte and not before |
| HttpResponses.UndelimitedResponse | httprequest.h:658-667 | with neither framing everything behind the headers is body, whatever the receives, and the reader waits for the peer to disconnect |
| HttpRequest.Serialise | httprequest.h:479-489 | the text appended piece by piece is the request line, the header block and the body |
| HttpRequest.RequestText | httprequest.h:479-489 | every request letter for letter |
| HttpRequest.StartsWithRequestLine | httprequest.h:479 | a request starts with its method, a space, its path and the version |
| HttpRequest.RequestLineReadBack | httprequest.h:479 | the text before the first CRLF splits at spaces into method, path and version |
| HttpRequest.HostReadBack | httprequest.h:484-486 | the two lines behind the caller's are named Host and Content-Length and hold the domain and the length |
| HttpRequest.RequestReadBack | httprequest.h:479-606 | a header reader recovers the caller's headers, Host, Content-Length and the body if and only if headers and domain hold no framing and no header is refused |
| HttpRequest.LengthLineReads | httprequest.h:591-595 | the length printed in the request is the length parsed |
| UrlEncoding.UrlEncode | httprequest.h:262-306 | the loop over positions computes the encoding the lemmas are about |
| UrlEncoding.EscapeSequence | httprequest.h:277-302 | a lead byte and the bytes it claims are escaped, stopping at the end of the string |
| UrlEncoding.AsciiEncoded | httprequest.h:272-277 | an ASCII character is written as it is if and only if it is a letter, a digit, `-`, `.` or `_`; any other is escaped |
| UrlEncoding.SequenceEncoded | httprequest.h:278-302 | a lead byte is escaped with the one, two or three bytes behind it, as far as there are any and whatever they are |
| UrlEncoding.StrayIsDropped | httprequest.h:278-302 | a byte that can lead nothing is dropped |
| UrlEncoding.EscapesAre | httprequest.h:277 | every escape is a percent sign and two upper-case hexadecimal digits |
| UrlEncoding.DecodedEncoded | httprequest.h:262-306 | percent-decoding gives back everything but the bytes that cannot start a sequence |
| UrlEncoding.RoundTripExactly | httprequest.h:262-306 | it gives back the whole string if and only if there is no such byte |
| UrlEncoding.TextRoundTrip | httprequest.h:262-306 | it gives back all well-formed UTF-8 |
| UrlEncoding.FormBody | httprequest.h:439-448 | the loop writes the pairs joined by `&` |
| UrlEncoding.FormRoundTrip | httprequest.h:439-450 | splitting and decoding a form body gives back every parameter, in order, without its stray bytes |
| UrlEncoding.FormRoundTripExactly | httprequest.h:439-450 | the parameters come back if and only if no key and no value holds a stray byte |
| Url.Request.constructor | httprequest.h:388-433 | the constructor, cutting its members in place, splits a URL as specified |
| Url.Request.CutPath | httprequest.h:405-422 | the fragment is removed, and domain and path are separated at the first slash |
| Url.Request.CutPort | httprequest.h:424-432 | the port is what follows the first colon, else 80 |
| Url.ParseIsCanonical | httprequest.h:388-433 | for every string, no separator is left in a component that it would break up |
| Url.PrintParse | httprequest.h:388-433 | components without separators survive printing and splitting |
| Url.Fixpoint | httprequest.h:388-433 | printing the components of any string and splitting again gives the same components |
| Url.Image | httprequest.h:388-433 | the results of the splitter are exactly the canonical components |
| Url.PartsParse | httprequest.h:388-433 | a URL written from its parts is split into them; without a scheme it is http, without a port 80, without a path /, and a fragment is dropped |
| UnixService.CommandServer.SlotReady | qtservice/src/qtservice_unix.cpp:322-361 | a signal changes only its own connection, runs the commands of its cache and logs the new calls |
| UnixService.CommandServer.GetCommand | qtservice/src/qtservice_unix.cpp:369-378 | the first line is cut off the cache with its CRLF; without one nothing changes |
| UnixService.CommandServer.RunCommand | qtservice/src/qtservice_unix.cpp:328-358 | the branches for one command, in place, make the calls and the one reply that ControllerVerbs, NumberCommand and UnknownCommand state by text |
| UnixService.CommandServer.ServeLoop | qtservice/src/qtservice_unix.cpp:326-360 | the loop up to the empty command equals the recursive specification, calls logged in order |
| UnixStreams.Conservation | qtservice/src/qtservice_unix.cpp:322-378 | over any signals the consumed lines with their CRLFs, then the cache, spell the stream; the calls and replies are those of the non-empty lines, in order; a complete line stays only behind an empty one |
| UnixStreams.ConsumedIsPrefix | qtservice/src/qtservice_unix.cpp:369-378 | the consumed lines and those waiting in the cache are the lines of the stream |
| UnixStreams.EveryCutRunsAll | qtservice/src/qtservice_unix.cpp:322-378 | every cut of a stream runs all its commands if and only if none comes behind an empty line |
| UnixStreams.SettledOutcome | qtservice/src/qtservice_unix.cpp:322-361 | on such a stream calls and replies are the same for every cut |
| UnixStreams.EmptyLineMatters | qtservice/src/qtservice_unix.cpp:326-378 | an empty line before one command is already a stream outside that condition |
| UnixStreams.Interleaving | qtservice/src/qtservice_unix.cpp:322-361 | among any other connections each fares as if alone, and the log tells its calls in its order |
| UnixStreams.ControllerCommand | qtservice/src/qtservice_unix.cpp:94-108 | a command sent over a fresh connection is run once, answered with exactly one `true` or `false`, and the controller is told which |
| UnixStreams.ControllerVerbs | qtservice/src/qtservice_unix.cpp:221-234 | stop, pause and resume return true, and are answered `true`, exactly when the flags permit, and then the service is called once; else `false` is written |
| UnixStreams.ControllerSendCommand | qtservice/src/qtservice_unix.cpp:236-239 | for every 32-bit code the service is called once with that very code |
| UnixStreams.ControllerRequest | qtservice/src/qtservice_unix.cpp:221-239 | end to end for every function of the controller: its own call and no other, exactly when permitted, and that is what it returns |
| UnixStreams.UnknownCommand | qtservice/src/qtservice_unix.cpp:347-358 | any other line, `num:` alone included, is answered `false` and makes no call |
| UnixStreams.NumberCommand | qtservice/src/qtservice_unix.cpp:347-351 | any text behind `num:` is answered `true` and passed on as the number read from it |
| UnixStreams.ToIntReads | qtservice/src/qtservice_unix.cpp:349 | a signed number between white space is its value if 32 bits hold it, else 0 |
| UnixStreams.ToIntRefuses | qtservice/src/qtservice_unix.cpp:349 | any other text is 0 |
| UnixStreams.NumberRoundTrip | qtservice/src/qtservice_unix.cpp:347-349 | every 32-bit number survives printing and parsing |
| Modbus.Dissector.ProcessModbusPacket | modbus.cpp:122-164 | the recursion over copies of the remaining bytes, changing `data` and the address, equals the specification |
| Modbus.Dissector.AnalyzeModbusPacket | modbus.cpp:11-119 | the branches for one PDU, in place, give the report that the rows of ModbusQueries state by text, and change the remembered address by a query alone |
| Modbus.Dissector.AppendFrame | modbus.cpp:128-147 | the group of the first frame is appended, or nothing when its analysis is not defined |
| Modbus.Dissector.AppendRegisters | modbus.cpp:88-92 | the register loop lists one signed value per word at consecutive addresses |
| Modbus.Dissector.Copy | modbus.cpp:134-138 | the copy loop copies exactly the bytes asked for |
| ModbusStreams.FramesAreUnique | modbus.cpp:125-157 | a packet splits into complete frames and a rest in exactly one way, and the recursion finds it |
| ModbusStreams.ProcessIs | modbus.cpp:122-164 | for every packet: the groups of its frames are added in order; everything gathered is published when the frames are the whole packet, and kept otherwise |
| ModbusStreams.PublishesIff | modbus.cpp:128-163 | a call publishes if and only if its payload tiles into complete frames |
| ModbusStreams.DefinedIff | modbus.cpp:69-114 | the analysis is defined if and only if the PDU is no exception response and holds all its registers |
| ModbusStreams.RunConserves | modbus.cpp:128-163 | over all calls on one object, everything published, then `data`, is every group once and in order |
| ModbusStreams.NumberedFromLatestQuery | modbus.cpp:94-98 | over any run the remembered address is bytes 1 and 2 of the latest query |
| ModbusReports.HexRoundTrip | modbus.cpp:145 | every PDU is recovered from its hexadecimal text |
| ModbusReports.GroupFields | modbus.cpp:143-147 | splitting a published group at its semicolons gives back exactly its entries |
| ModbusReports.GroupsValues | modbus.cpp:143-161 | the published text gives back all transaction ids and PDUs, in order |
| ModbusReports.AduRoundTrip | modbus.cpp:122-164 | any list of units in one payload is published with all its ids and PDUs if and only if every PDU can be analysed |
| ModbusReports.ReadResponseListed | modbus.cpp:84-98 | a response lists exactly its signed values from the remembered address if and only if it has four registers or more |
| ModbusReports.WriteRequestListed | modbus.cpp:105-115 | a write request lists exactly its signed values from its address if and only if it has two or more |
| ModbusReports.ResponseInRun | modbus.cpp:84-98 | in a run a response is numbered from the latest query before it, or from 0 |
| ModbusReports.EntryParses | modbus.cpp:91 | an entry gives back its address and its signed value |
| ModbusReports.ResponseReadBack | modbus.cpp:84-163 | from the published text of a payload the (address, value) pairs of a response are recovered in order, between those of the frames before and behind it |
| ModbusQueries.QueryReported | modbus.cpp:94-98 | a query reports its title, and start address and quantity in this order |
| ModbusQueries.DiagnosticsReported | modbus.cpp:100-104 | function 8 reports its title, the subfunction and the length of the PDU |
| ModbusQueries.TitleAlone | modbus.cpp:105-117 | every other function, and function 16 with eight bytes, reports its title alone |
| ModbusQueries.TitlesAre | modbus.cpp:22-66 | the title of each function code |
| ModbusQueries.UnknownTitle | modbus.cpp:60-66 | the title of all others |
| ModbusQueries.ShortIsSilent | modbus.cpp:13-79 | PDUs of less than eight bytes report nothing, exception responses apart |
| ModbusQueries.RegistersListed | modbus.cpp:84-93 | a response lists as many registers as half its byte count says, whatever follows them |
| ModbusQueries.WrittenRegistersListed | modbus.cpp:105-114 | a write request likewise, from its own address |
| ModbusQueries.OnlyQueriesRemembered | modbus.cpp:94-98 | the address of a query of eight bytes is remembered, and of no other PDU |
| ModbusQueries.FrameInText | modbus.cpp:122-163 | in the published text every frame has exactly its own fields, between those of the frames before and behind it |
| ModbusQueries.QueryInText | modbus.cpp:94-163 | a query anywhere in a payload is published with its own address and quantity |
| ModbusQueries.EntriesReadBack | modbus.cpp:96-103 | both numbers of a query, and of diagnostics, are recovered from their entry |
| ModbusQueries.HexAt | modbus.cpp:145 | a PDU is printed in lower-case hexadecimal, two digits a byte, with colons between |
| WinRuns.StepKeeps | qtservice/src/qtservice_win.cpp:543-855 | every step of every thread keeps the invariant of mutex, start-up, events, controls, statuses and commands; what a call reports on the whole is stated in WinReports |
| WinRuns.RunKeeps | qtservice/src/qtservice_win.cpp:543-855 | the invariant holds after every run |
| WinRuns.NoLostWakeUp | qtservice/src/qtservice_win.cpp:576-657 | while a call of handler waits, its own event is in the queue or the main thread is at it and before its wake |
| WinRuns.WokenByOwnCallback | qtservice/src/qtservice_win.cpp:605-657 | a call leaves its wait only when the callback of its own event has returned |
| WinRuns.ToldWhileWaiting | qtservice/src/qtservice_win.cpp:605-655 | while it waits, the manager has been told the pending status of that control |
| WinRuns.SetAfterWait | qtservice/src/qtservice_win.cpp:625-637 | behind the wait PAUSE sets paused and CONTINUE sets running |
| WinRuns.StartHandshake | qtservice/src/qtservice_win.cpp:708-841 | in every interleaving the application gets the complete arguments, nothing is posted before the receiver exists, and a failed dispatcher releases the semaphore only with `success` false |
| WinRuns.StatusLanguage | qtservice/src/qtservice_win.cpp:605-670 | the statuses of a complete run are, up to repeats, START_PENDING RUNNING, pairs of pausing and continuing, perhaps STOP_PENDING, and STOPPED |
| WinRuns.ReportsAreLegal | qtservice/src/qtservice_win.cpp:605-670 | at any point the reports follow the legal changes |
| WinRuns.StoppedIsLast | qtservice/src/qtservice_win.cpp:659-661 | behind STOPPED only STOPPED is reported, the reports outside the mutex included |
| WinRuns.CommandsInOrder | qtservice/src/qtservice_win.cpp:594-597 | the commands passed to `processCommand` are those sent, each once and in order, but for one under way |
| WinRuns.CommandControlIsUser | qtservice/src/qtservice_win.cpp:397-420 | exactly the codes 0 to 127 are sent, and only to a running service; the offset never confuses them with another control or the start-up |
| WinRuns.SomeStep | qtservice/src/qtservice_win.cpp:605-657 | as long as a call of handler is under way some thread can go on: there is no deadlock |
| WinRuns.RequestsComplete | qtservice/src/qtservice_win.cpp:576-662 | from any reachable state, in any order of steps, the threads come to rest within a bound |
| WinRuns.RestIsComplete | qtservice/src/qtservice_win.cpp:605-670 | at rest no call is unfinished, and a service told to end has ended and reported STOPPED last |
| WinRuns.RestAccepts | qtservice/src/qtservice_win.cpp:605-657 | a service at rest in its loop is running or paused, has reported so, and can be sent any control |
| WinReports.ReturnReports | qtservice/src/qtservice_win.cpp:657-661 | in any state the step with which a call of handler returns reports the status as it then is, or nothing if that is STOPPED and was seen so |
| WinReports.ControlAnswered | qtservice/src/qtservice_win.cpp:605-662 | a control that does not end the service, sent to it at rest: when the threads rest again, in whatever order they went on, exactly its statuses are reported and exactly its event and its callback have been handled; INTERROGATE and unknown controls are answered with the status and do nothing else |
| WinReports.EndAnswered | qtservice/src/qtservice_win.cpp:605-670 | STOP and SHUTDOWN at rest: the service ends, `stop` is called once, and exactly one of three sequences is reported, SHUTDOWN without a pending status |
| WinReports.StartAnswered | qtservice/src/qtservice_win.cpp:543-637 | an undisturbed start that calls handler reports START_PENDING, RUNNING and RUNNING and calls `start` once; one that does not reports nothing |
| WinReports.StartGivesUp | qtservice/src/qtservice_win.cpp:810-831 | `start()` gives up exactly without the semaphore in time, after a failed dispatcher, or without an application |
| WinReports.GaveUpIsSilent | qtservice/src/qtservice_win.cpp:810-831 | a start that was given up has reported nothing and called no handler |
| WinReports.DispatcherRuns | qtservice/src/qtservice_win.cpp:716-728 | a dispatcher that connects stays; one that fails sets `success` and `console` before it releases the semaphore, once |
| WinReports.UnregisteredEnds | qtservice/src/qtservice_win.cpp:558-561 | without a registration `serviceMain` ends and no call of handler follows |
| WinReports.RunCallsBack | qtservice/src/qtservice_win.cpp:576-598 | over every run the callbacks are those of the events handled, in order |
| WinBoundary.LateRunInLockStep | qtservice/src/qtservice_win.cpp:576-657 | the lock-step holds over all runs in which controls that post events come as soon as the start-up call is woken, still reported as pending or not, and also after STOP |
| WinBoundary.RunIsLate | qtservice/src/qtservice_win.cpp:605-657 | these include all runs under the assumed rule |
| WinBoundary.BoundaryIsExact | qtservice/src/qtservice_win.cpp:576-657 | after any such run, sending a control that posts an event keeps the lock-step in every continuation if and only if the start-up call is woken or the main thread is at its wake with the mutex |
| WinBoundary.ControlDuringStartupIsWokenEarly | qtservice/src/qtservice_win.cpp:600-653 | any control that posts an event, sent during the callback of the start-up, is woken by it with its own event still waiting |
| WinBoundary.RunIntoTheGap | qtservice/src/qtservice_win.cpp:543-657 | a run from the start of the process to such a moment |

## Left out

HTTP client:

- HttpReader.DataStep: only the first argument of `std::min<int>` is narrowed; the second, the size of the buffer, differs from its narrowed value only with 2 GiB in the buffer at once, and receives are of at most 4096 bytes.
- Sockets, `getaddrinfo`, the sending loop, the check of the scheme and the WinSock wrappers: a receive is an arbitrary string, a disconnect is the end of the list of receives.
- `unsigned long` and `std::size_t` have 64 bits, `isspace` is that of the "C" locale, and running out of memory is not modelled.
- `EndlessLoop` and `ReversedRange` stand for a loop without progress and for undefined behaviour; what the program does behind either is not modelled.
- The parameter map of a form is a list in the order in which the map is traversed; the four unrolled branches of `urlEncode` share one method.

Unix service:

- Texts are ASCII without NUL, so the conversions between `QString` and bytes are the identity; `QString::toInt` reads an optionally signed decimal between white space.
- Connections have fresh numbers; closing a socket, which leaves its cache behind, and the reuse of a socket's address are not modelled.
- `quit()` is a logged call; that the event loop ends some time after it, and signals are no longer served, is not modelled.
- `sendCmd` is modelled behind a successful connection with the reply delivered whole. `encodeName` and the socket path are left out: they only choose the file both ends open.

Modbus dissector:

- `Faulty` stands for everything the language does not define: a header read behind the payload, the exception branch, which returns no value (`modbus.cpp`, lines 71-73), and registers behind the PDU. Nothing is claimed about such a call or what follows it.
- The memory of the copies, which the source does not release, and the conversion of payload lengths to `int`. For a length field of 0 the source asks for a negative number of bytes; the model takes the PDU as empty, as `QByteArray` does.
- The sniffer builds a new object for every payload (`sniffer.cpp`, line 221); the theorems about runs are about an object that is kept.

Windows service:

- The threads are a transition system on values rather than classes: a class method would hide the interleaving that the properties are about. Qt's mutex, condition and event queue behave as documented, and waits do not wake without cause.
- The rules of the service manager are assumptions: one control at a time, none that posts an event while the start is pending or after STOP or SHUTDOWN, and only those two end the application. Whether the dispatcher connects, registration succeeds and the 20 seconds suffice is open.
- The callback of an event and the `quit()` behind it are one step, and what a callback does is not modelled; service flags, the exit code, the 1 s wait for the dispatcher, deletion at the end, the filter for session events and installation are left out.

Whole files: the sniffer, the adapters and raw packet sending, because they are calls into libpcap, sockets and
threads with little state of their own; `networktools.h`, because nothing modelled here calls it; argument dispatch,
settings, installation and logging, because they are file and system calls.
