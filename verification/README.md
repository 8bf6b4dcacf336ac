# Verified models of the emulator's hard support code

This project models the parts of the repository whose correctness rests on long-lived state, on
in-place algorithms or on interleavings, and proves what they promise for every input, every run
or every reachable state.

* **`Getopt`, `GetoptLaws`** - the narrow-character GNU-style option scanner: the in-place exchange of blocks,
  the resumable scan and a whole run, against a scan of the arguments as they were given; and what a table of
  options, a list of long options and a command line written from them mean.
* **`HttpText`, `Query`, `QueryLaws`, `Base64`, `Base64Law`** - the text helpers, query coding and base64 coder of
  the HTTP library, and what the coded texts mean character by character.
* **`Multipart`, `MultipartBody`, `MultipartCut`, `MultipartLost`, `MultipartNames`, `MultipartParser`** - the
  streaming multipart/form-data parser (RFC 7578 section 4, RFC 2046 section 5.1.1) as a machine on values, what
  it hands on for one entry, what it makes of forms cut inside boundary lines, of extended file names and of
  malformed headers, the class with its compacting buffer, and the serializer it must undo.
* **`Chunked`, `ChunkedCut`, `ChunkedSizes`, `ChunkedStream`** - the chunked writer and reader (RFC 9112 section
  7.1) over the line reader and the read-ahead socket buffer, for a socket that splits its reads in any way;
  streams that break off, malformed chunks, trailers, and all forms of a size line.
* **`ThreadPool`, `ClientSocket`** - two concurrent protocols as step relations: the worker pool with its
  condition variable, and the ownership of a client's socket between `send` and `stop`.
* **`ProfilerTicks`, `ProfilerRing`, `ProfilerReplay`, `ProfilerFlip`, `ProfilerGroups`, `ProfilerTimers`,
  `ProfilerRun`, `ProfilerPool`, `ProfilerThreads`** - the profiler core: packed entries and wrapping ticks, the ring log
  with its delayed frame windows, the call-stack replay on values and on arrays, what its totals mean, whole
  runs of one thread, the pool of thread logs, and whole runs of any number of threads that come and go.
* **`Resampler`, `LinearInterpolation`, `Adpcm`** - the streaming resampler, its kernels, and the ADPCM
  decoder.
* **`Common`** - what several of these share.

Code that updates things in place is modelled by classes, arrays and loops, and each such method is
proved equal to a function on values; the laws are proved about those functions. The main results:

1. A whole run of the option scanner leaves the arguments stably partitioned, with `optind` at the
   first operand and the events of the unmoved arguments; the other two orderings move nothing
   (`Getopt.Scanner.Run`, `Getopt.StepKeeps`, `Getopt.MarksExactly`). For arguments written from an option
   table, short, clustered, long or abbreviated, with every way of giving, leaving out or missing an argument,
   those events are exactly the uses written (`GetoptLaws.CommandLine`).
2. A serialized form, cut into pieces in any way, parses back to the same items and counts as valid if and
   only if it has items and its opening line comes whole (`MultipartLost.RoundTripExactly`); for arbitrary
   bytes in arbitrary pieces and any answers of the callbacks the parser hands on a prefix of the bytes before
   the first delimiter, and exactly them once it meets the delimiter (`MultipartBody.BodyBytes`).
3. Whatever the sink is used for, the chunked reader returns the writes before the first `done` and
   accepts exactly if there was one (`ChunkedStream.ReadsBack`); of a stream that breaks off anywhere it accepts
   nothing and hands on a prefix (`ChunkedCut.CutAnywhere`, `ChunkedCut.AcceptedWhole`).
4. Pool and socket protocols: no lost wakeup, every job run once, a wait for the workers that ends, no
   close under another thread's request, and the exact condition under which a stop leaves the socket closed
   (`ThreadPool.NoLostWakeup`, `ThreadPool.AllJobsRun`, `ThreadPool.JoinEnds`,
   `ClientSocket.SafeInEveryRun`, `ClientSocket.StopClosesExactly`).
5. Ring, delayed windows, wrapping ticks, slot stack and per-flip counters together credit a group
   with the time its timers cover, each tick once (`ProfilerRun.TotalsAreTrueTime`), and a timer with its
   intervals, their number and the time in which it is innermost (`ProfilerRun.TimersAreTrueTime`); a frame loses
   exactly the entries behind the first size - 1 (`ProfilerRing.FrameKeepsFirst`); with any number of
   threads that begin, end and hand on their logs, every log is that of its own thread alone and the totals
   are the sums over all threads (`ProfilerThreads.OwnEntries`, `ProfilerThreads.ThreadsTrueTime`,
   `ProfilerThreads.ThreadsTimerTime`); exclusive time is
   conserved over all threads and flips for every log (`ProfilerReplay.ConservedOverFlips`,
   `ProfilerReplay.ExclusiveIsTopTime`).
6. Streaming resampling is batch resampling (`Resampler.StreamingIsBatch`, `LinearInterpolation.LinearStream`),
   every ADPCM sample obeys the filter over its own byte, header and coefficients (`Adpcm.SampleLaw`), decoding
   composes at frame borders (`Adpcm.Compose`), and their integer arithmetic is exact where
   it is (`LinearInterpolation.LerpIsExact`, `Adpcm.BoundIsSharp`).

Two promises turn out to have a condition. A `stop` during a request is forgotten if that request begins
another attempt, by a nested call (`ClientSocket.NestedCallForgetsStop` gives the run) or by the retry after
a closed TLS peer (`ClientSocket.RetryForgetsStop`): when the request returns, the socket is open if and only
if an attempt that began after the stop has a socket and nothing has closed it since
(`ClientSocket.StopClosesExactly`). A form whose pieces cut its opening boundary line loses items without an
error: the parser forgets every piece until one holds a whole boundary line, so the items come back only
from that line's item on, and the form still counts as valid; without such a line nothing comes back
(`MultipartCut.WhatIsLeft`). `MultipartCut.CutExample` gives such a form, and
`MultipartLost.RoundTripExactly` says, for forms with any contents, that the round trip holds if and only if
there are items and the opening line comes whole.

## Model

| member | source | states |
|---|---|---|
| `Getopt.FindLong` | externals/getopt/getopt.c:201-246 | the table scan finds the first exact name, else the first abbreviation unless a later one differs from it |
| `Getopt.KeepIsPartition` | externals/getopt/getopt.c:129-185 | the option part and the operands together hold exactly the given elements, as a multiset |
| `Getopt.MarksExactly` | externals/getopt/getopt.c:129-198 | in every ordering, at the places the reader really comes to: an element is marked if and only if it is an option, `--`, an operand handed out in order, or taken by an option in the element before, and unmarked if and only if it is an operand or stands behind the operand or `--` that ends the options |
| `Getopt.RotatedBlocks` | externals/getopt/getopt.c:72-107 | a rotation keeps what lies outside and puts the second block before the first, each in its own order |
| `Getopt.SwapBlocks` | externals/getopt/getopt.c:84-101 | the inner loops exchange two blocks of equal length and nothing else |
| `Getopt.RotateFar` | externals/getopt/getopt.c:80-91 | swapping the shorter first block to the far end leaves a smaller rotation with the same result |
| `Getopt.RotateNear` | externals/getopt/getopt.c:92-103 | swapping the shorter second block to the near end leaves a smaller rotation with the same result |
| `Getopt.ExchangeRound` | externals/getopt/getopt.c:78-104 | a round narrows the range and keeps the rotation still to be reached |
| `Getopt.Scanner.Exchange` | externals/getopt/getopt.c:72-107 | argv becomes its rotation of the operand block past the options read, and the block's bounds follow it |
| `Getopt.Scanner.Initialize` | externals/getopt/getopt.c:108-141 | a fresh scan starts at `optind`, with the ordering that the option string or the environment asks for |
| `Getopt.Scanner.Gather` | externals/getopt/getopt.c:152-157 | the operand block ends at `optind`, by an exchange or by starting anew |
| `Getopt.Scanner.Skip` | externals/getopt/getopt.c:158-160 | the block takes in all operands that follow |
| `Getopt.Scanner.Settle` | externals/getopt/getopt.c:162-185 | `--`, the end, an operand or an option element at `optind`: the answer and the new state for each |
| `Getopt.Scanner.ReadFound` | externals/getopt/getopt.c:247-297 | a long option found: its argument from the text or the next element, the missing and the unwanted argument, `flag` and `longind` |
| `Getopt.Scanner.ReadLong` | externals/getopt/getopt.c:187-316 | long options by lookup: ambiguous, found, unknown, or left to the short scan with nothing changed |
| `Getopt.Scanner.ReadShort` | externals/getopt/getopt.c:317-477 | one short option is answered, and every field left, as its kind in the option string asks (`GetoptLaws.ShortLaw` says how, over a written-out table) |
| `Getopt.DecideShort` | externals/getopt/getopt.c:438-476 | an element is left only when its text is used up, and the next element is taken only as an argument (`GetoptLaws.ShortLaw` says by what kind) |
| `Getopt.Scanner.Continue` | externals/getopt/getopt.c:146-477 | a call answers and leaves the state that the value model of a call gives |
| `Getopt.Scanner.Next` | externals/getopt/getopt.c:129-477 | a call from any state, fresh or resumed, with no arguments at all included |
| `Getopt.StepKeeps` | externals/getopt/getopt.c:129-477 | on every reachable state a call keeps the block layout and the reader's suffix, reports the next event of the unmoved arguments and shortens what is unread, or ends with the arguments partitioned |
| `Getopt.RunStep` | externals/getopt/getopt.c:129-477 | events so far and events ahead are those of the whole, and every call that does not end the scan decreases the unread characters and elements |
| `Getopt.Scanner.Run` | externals/getopt/getopt.c:129-477 | the calls end; argv is a stable partition, `optind` is at the first operand, the events are those of the arguments as given, and the other two orderings leave argv as it was |
| `GetoptLaws.ShortLaw` | externals/getopt/getopt.c:317-477 | over a table of distinct option characters, written as an option string, a short option of each kind is decided as its kind says: no argument, an optional one from the element only, a required one from the element, else from the next, else the missing-argument answer `:` or `?`; a character outside the table is `?` |
| `GetoptLaws.NamesOneOrNothing` | externals/getopt/getopt.c:201-246 | every text either names exactly one long option, exactly or as an abbreviation, or begins no name or the names of several that differ |
| `GetoptLaws.LongLaw` | externals/getopt/getopt.c:187-297 | a text that names a long option is decided by its `hasArg` of 0, 1 or 2 and by an argument behind an equals sign, with two dashes and, where allowed, with one |
| `GetoptLaws.LongWrong` | externals/getopt/getopt.c:228-316 | a text that names no long option or several is refused as a whole, unless a single dash leaves it to the short options |
| `GetoptLaws.LongOnlyShort` | externals/getopt/getopt.c:298-330 | an element with a single dash that begins no long name, but whose first character is in the option string, is read as a short option |
| `GetoptLaws.CommandLine` | externals/getopt/getopt.c:129-477 | arguments written as clusters, short options with glued or separate arguments, long options, their abbreviations and errors, and operands give exactly those events in order, up to the end, `--` or the operand that ends the options, and exactly the operands and what stands behind that end are unmarked |
| `GetoptLaws.OptionStringRead` | externals/getopt/getopt.c:108-128 | a sign in front of the table sets the ordering and is dropped |
| `HttpText.FindFromLeast` | externals/httplib/httplib.h:4465-4486 | the search result is an occurrence, and nothing occurs before it |
| `HttpText.FindDelimiter` | externals/httplib/httplib.h:4373-4394 | text without the delimiter, followed by a delimiter that does not overlap itself, is found at its end |
| `HttpText.FindInPrefix` | externals/httplib/httplib.h:4373-4394 | what has arrived tells where the first delimiter of the whole stream is, or how far it cannot be |
| `HttpText.StripIs` | externals/httplib/httplib.h:2456-2470 | trimming keeps exactly what lies between the first and the last character that is not blank |
| `HttpText.TrimRange` | externals/httplib/httplib.h:2456-2465 | the two scans over one segment of a larger buffer trim that segment |
| `HttpText.SplitAtDelimiter` | externals/httplib/httplib.h:2479-2497 | a text splits at its first delimiter into its trimmed head and the split of the rest |
| `HttpText.SplitLoop` | externals/httplib/httplib.h:2479-2497 | the scan hands on exactly the trimmed, non-empty segments in order |
| `HttpText.ParsePairs` | externals/httplib/httplib.h:4176-4197 | repeated pieces count once, the first part is the key and the last other part the value, and pieces without a key are skipped |
| `Query.EncodeQueryParam` | externals/httplib/httplib.h:2348-2367 | the loop writes the percent coding of every byte |
| `Query.FromHex` | externals/httplib/httplib.h:2194-2223 | a number of exactly so many hexadecimal digits, or failure, also at the end of the text |
| `Query.DecodeHere` | externals/httplib/httplib.h:2405-2432 | what one position decodes to: `%uXXXX`, `%XX`, a broken escape, a plus sign or a plain character |
| `Query.DecodeUrl` | externals/httplib/httplib.h:2401-2436 | the loop is the decoding of the whole text |
| `Query.DecodeEncode` | externals/httplib/httplib.h:2348-2436 | decoding undoes encoding on every byte string, in both plus-sign modes |
| `Query.EncodedAlphabet` | externals/httplib/httplib.h:2353-2364 | encoded text holds only unescaped characters and percent signs, so no delimiter of a query |
| `Query.DistinctIs` | externals/httplib/httplib.h:4177-4181 | dropping repetitions keeps every pair that is there, and each once |
| `Query.ParamsToQueryStr` | externals/httplib/httplib.h:4164-4174 | the loop writes the pairs joined by `&` |
| `Query.ParseQueryText` | externals/httplib/httplib.h:4176-4197 | the parser reads the pairs of the text |
| `Query.QueryRoundTrip` | externals/httplib/httplib.h:4164-4197 | for non-empty plain keys and any byte values, reading back the written query gives each distinct pair exactly once |
| `QueryLaws.EncodeLaw` | externals/httplib/httplib.h:2348-2367 | letters, digits and the nine signs stand for themselves, and every other byte is a percent sign and its two upper-case digits |
| `QueryLaws.Utf8Law` | externals/httplib/httplib.h:2235-2258 | a code point of four hexadecimal digits gives its UTF-8 bytes, half a surrogate pair none |
| `QueryLaws.DecodeLaw` | externals/httplib/httplib.h:2401-2436 | text made of plain characters, plus signs, `%XX` and `%uXXXX` in either case decodes to spaces, bytes and UTF-8 bytes, token by token |
| `QueryLaws.BrokenEscape` | externals/httplib/httplib.h:2405-2428 | a percent sign without its digits stands for itself, and what follows is read on its own |
| `QueryLaws.QueryLaw` | externals/httplib/httplib.h:4176-4197 | query text of different pieces gives one pair for each in order: the first part and the last one behind it, both decoded with plus signs as spaces |
| `Multipart.ParseDispositionParams` | externals/httplib/httplib.h:4210-4232 | the parameters of a disposition with their quotes removed |
| `Multipart.SerializeFormData` | externals/httplib/httplib.h:4557-4600 | the loop writes the serialized form |
| `Multipart.SerializeText` | externals/httplib/httplib.h:4557-4600 | the form read from the front: the opening line, then for each item its header lines, its content and a delimiter, closed by `--` |
| `Multipart.ParametersParsed` | externals/httplib/httplib.h:4210-4232 | the parameters the serializer writes parse back to the name and, if there is one, the filename |
| `Multipart.LineParsed` | externals/httplib/httplib.h:4323-4366 | every header line the serializer writes adds its own part of the item's information |
| `Multipart.BodyTurn` | externals/httplib/httplib.h:4373-4395 | one round in the body, whatever the bytes and the callback's answer: it hands on bytes before the first delimiter of everything to come, all of them when it leaves, keeps back what may begin a delimiter, and stops if refused |
| `MultipartBody.RunExtends` | externals/httplib/httplib.h:4288-4417 | a call only adds to what the callbacks have been given |
| `MultipartBody.BodyCall` | externals/httplib/httplib.h:4373-4394 | one call from the body state on: still in the entry, past its delimiter, or refused, with the bytes handed on in each case |
| `MultipartBody.BodyBytes` | externals/httplib/httplib.h:4288-4417 | for arbitrary bytes in arbitrary pieces and any callback, the bytes that the calls hand on for the entry are a prefix of those before the first delimiter of the whole stream, all but at most a delimiter's length while it has not come, and exactly all once it is met; only a refusal ends the calls early |
| `Multipart.IterateKeeps` | externals/httplib/httplib.h:4293-4413 | every round keeps the parser's place in the serialized form, the items collected and the input still to be read |
| `Multipart.RunKeeps` | externals/httplib/httplib.h:4288-4417 | a whole call keeps that place and succeeds |
| `Multipart.RoundTrip` | externals/httplib/httplib.h:4276-4600 | for well-formed items and any cutting with the opening line whole, parsing the serialized form gives the items in order and ends valid |
| `MultipartCut.PiecesForgotten` | externals/httplib/httplib.h:4295-4302 | pieces that do not hold a boundary line leave the parser as it was, without an error |
| `MultipartCut.WhatIsLeft` | externals/httplib/httplib.h:4276-4600 | if the text of a boundary line stands nowhere else, a form cut anywhere gives back the items from the first on whose boundary line lies in one piece and counts as valid, and nothing at all if there is none |
| `MultipartCut.OnlyAtMarksExactly` | externals/httplib/httplib.h:4557-4600 | the text of a boundary line stands nowhere else if and only if the boundary is not made of dashes, no content with its line break holds one, and no content type ends like one |
| `MultipartCut.FirstItemLost` | externals/httplib/httplib.h:4295-4302 | a form of two or more items cut behind its first byte is accepted as valid without its first item |
| `MultipartCut.CutExample` | externals/httplib/httplib.h:4295-4302 | a form of two one-byte items for which this happens |
| `MultipartLost.DelimitersStand` | externals/httplib/httplib.h:4557-4600 | every delimiter in a serialized form stands at the end of a content or where a content begins like one |
| `MultipartLost.OpeningBehind` | externals/httplib/httplib.h:4557-4600 | text like a boundary line stands elsewhere only at the end of the first item's content type or behind where its content begins |
| `MultipartLost.IteratePast` | externals/httplib/httplib.h:4292-4443 | a parser that got behind its place in the form stays behind it in every round, as long as what it has collected agrees with the items |
| `MultipartLost.EmptyForm` | externals/httplib/httplib.h:4276-4600 | a form without items never counts as valid |
| `MultipartLost.RoundTripExactly` | externals/httplib/httplib.h:4276-4600 | in any cutting and with any contents, a form comes back complete and valid if and only if it has items and its opening line comes whole |
| `MultipartNames.ExtendedName` | externals/httplib/httplib.h:4333-4361 | a percent-coded `filename*` takes the place of the file name, if there is one |
| `MultipartNames.OtherNotation` | externals/httplib/httplib.h:4348-4360 | a `filename*` in any other notation is refused |
| `MultipartNames.Nameless` | externals/httplib/httplib.h:4337-4343 | a disposition without a name is refused |
| `MultipartNames.OtherLine` | externals/httplib/httplib.h:4325-4365 | a line that is neither content type nor disposition is refused |
| `MultipartNames.WireFormat` | externals/httplib/httplib.h:4557-4600 | the serialized form, letter by letter |
| `MultipartNames.LongLineRefused` | externals/httplib/httplib.h:4309-4310 | a header without a line break within 8192 bytes is refused |
| `MultipartNames.BadLineRefused` | externals/httplib/httplib.h:4323-4366 | a header line that cannot be read ends the parse without a valid form |
| `MultipartNames.HeaderRefused` | externals/httplib/httplib.h:4313-4317 | so does a header that the callback refuses |
| `MultipartNames.StuckBehindDelimiter` | externals/httplib/httplib.h:4396-4413 | with neither a line break nor two dashes behind a delimiter, nothing is handed on any more and no piece changes that |
| `MultipartParser.Parser.Compact` | externals/httplib/httplib.h:4488-4496 | moving the unread bytes to the front, in place, keeps them |
| `MultipartParser.Parser.BufAppend` | externals/httplib/httplib.h:4488-4504 | the unread bytes become the old ones followed by the new ones |
| `MultipartParser.Parser.StartWith` | externals/httplib/httplib.h:4446-4463 | whether a text stands at a position of the unread bytes |
| `MultipartParser.Parser.BufFind` | externals/httplib/httplib.h:4465-4486 | the least position of a text in the unread bytes, or their number |
| `MultipartParser.Parser.BufErase` | externals/httplib/httplib.h:4506-4506 | the unread bytes lose their first ones |
| `MultipartParser.Parser.ReadOpening` | externals/httplib/httplib.h:4295-4302 | state 0 on the buffer is state 0 on the byte sequence |
| `MultipartParser.Parser.ReadParams` | externals/httplib/httplib.h:4337-4361 | name, filename and extended filename from the parameters, with both failures |
| `MultipartParser.Parser.ReadHeaderLine` | externals/httplib/httplib.h:4323-4366 | one header line changes the entry's information or fails the body |
| `MultipartParser.Parser.ReadHeaderLines` | externals/httplib/httplib.h:4308-4372 | state 2: the length limit, the lines that have arrived and the blank line |
| `MultipartParser.Parser.ReadContent` | externals/httplib/httplib.h:4373-4395 | state 3 on the buffer is state 3 on the byte sequence, refusing callbacks included |
| `MultipartParser.Parser.ReadBoundary` | externals/httplib/httplib.h:4396-4412 | state 4: next entry, end of the form, or wait |
| `MultipartParser.Parser.Parse` | externals/httplib/httplib.h:4288-4417 | a call on the buffer is a call of the machine on plain bytes |
| `Chunked.FromIToHex` | externals/httplib/httplib.h:2225-2233 | the loop writes the hexadecimal digits, most significant first |
| `Chunked.ScanHexOf` | externals/httplib/httplib.h:3797-3806 | scanning written digits gives the number back |
| `Chunked.OneChunk` | externals/httplib/httplib.h:3798-3817 | a written chunk is read as its payload and leaves the rest |
| `Chunked.LastChunk` | externals/httplib/httplib.h:3806-3840 | the end marker ends the body and leaves what follows |
| `Chunked.RoundTrip` | externals/httplib/httplib.h:3787-3840 | any non-empty writes below the size limit, then the end marker, read back as their concatenation with exactly the rest left |
| `ChunkedCut.CutAnywhere` | externals/httplib/httplib.h:3788-3840 | every proper prefix of a chunked body is refused, with a prefix of the payloads handed on |
| `ChunkedCut.AcceptedWhole` | externals/httplib/httplib.h:3788-3840 | a prefix is accepted if and only if it is the whole |
| `ChunkedCut.NoCrlfBehind` | externals/httplib/httplib.h:3808-3814 | a chunk whose payload is not followed by CRLF is refused, its payload handed on |
| `ChunkedCut.CutInPayload` | externals/httplib/httplib.h:3735-3756 | a payload cut short is refused, what there is of it handed on |
| `ChunkedCut.NoSize` | externals/httplib/httplib.h:3801-3804 | a size line without a hexadecimal digit is refused |
| `ChunkedCut.TrailersKept` | externals/httplib/httplib.h:3822-3839 | the trailer lines up to the blank one are kept in order, and what follows is left |
| `ChunkedCut.TrailerTooLong` | externals/httplib/httplib.h:3824-3825 | a trailer line over the limit is refused |
| `ChunkedSizes.SizeLaw` | externals/httplib/httplib.h:3801 | the size of a line with blanks, a sign, `0x`, digits in either case and any text behind them: their number, cut off at the largest, wrapped around by a minus sign |
| `ChunkedSizes.ChunkBySize` | externals/httplib/httplib.h:3798-3817 | a chunk is read by such a line, extension and all |
| `ChunkedSizes.SizeTooLarge` | externals/httplib/httplib.h:3804 | a size that reaches the largest number is refused |
| `ChunkedStream.SocketStream.Read` | externals/httplib/httplib.h:5316-5360 | the read-ahead buffer delivers the received bytes in order, at most as many as asked for and none only at the end |
| `ChunkedStream.LineReader.Append` | externals/httplib/httplib.h:2551-2562 | fixed and growable buffer act as one line |
| `ChunkedStream.LineReader.GetLine` | externals/httplib/httplib.h:2525-2549 | one line of the byte stream is read and nothing behind it, or the stream was at its end |
| `ChunkedStream.ReadContentWithLength` | externals/httplib/httplib.h:3735-3755 | exactly so many bytes are handed on, or all that came before a failure |
| `ChunkedStream.ReadOneChunk` | externals/httplib/httplib.h:3808-3816 | the payload and the line break behind it |
| `ChunkedStream.ReadTrailerLines` | externals/httplib/httplib.h:3822-3839 | the lines up to the blank one, with the length limit |
| `ChunkedStream.ReadContentChunked` | externals/httplib/httplib.h:3787-3840 | for every way the socket splits its reads the result is that of the plain byte stream (`ChunkedStream.ReadsBack` and `ChunkedCut.AcceptedWhole` say what that accepts) |
| `ChunkedStream.ChunkedWriter.SinkWrite` | externals/httplib/httplib.h:4035-4060 | a write puts one chunk on the wire, and an empty one only ends the loop |
| `ChunkedStream.ChunkedWriter.SinkDone` | externals/httplib/httplib.h:4062-4106 | `done` writes the end marker and ends the loop |
| `ChunkedStream.ChunkedWriter.WriteContentChunked` | externals/httplib/httplib.h:4112-4127 | the wire holds the text of the calls up to the one that ends the loop |
| `ChunkedStream.WireRoundTrip` | externals/httplib/httplib.h:4026-4127 | non-empty writes and `done`, spread over any calls, read back as their concatenation |
| `ChunkedStream.ReadsBack` | externals/httplib/httplib.h:4026-4127 | for every use of the sink the reader hands on the writes before the first `done`, and accepts if and only if a `done` was performed |
| `Base64.EncodedLength` | externals/httplib/httplib.h:2288-2294 | the text has four characters for every three bytes, rounded up |
| `Base64.DecodeEncode` | externals/httplib/httplib.h:2269-2295 | decoding the three-byte-group coding gives the bytes back, for every length (RFC 4648 section 4) |
| `Base64.Push` | externals/httplib/httplib.h:2282-2285 | the inner loop writes the digits that are complete |
| `Base64.Accumulate` | externals/httplib/httplib.h:2276-2286 | with the accumulator cut to 32 bits the loop still writes the digits of the complete groups and holds the open one |
| `Base64.Pad` | externals/httplib/httplib.h:2290-2292 | the text is filled up to a multiple of four |
| `Base64.Base64Encode` | externals/httplib/httplib.h:2269-2295 | the bit accumulator computes the three-byte-group coding with padding |
| `Base64Law.EncodeLaw` | externals/httplib/httplib.h:2269-2297 | character k is the letter of the k-th six bits, or the padding sign where there are none |
| `ThreadPool.StepInv` | externals/httplib/httplib.h:609-655 | every step keeps the mutex discipline, the queue order, the account of jobs, the wakeups and the shutdown facts |
| `ThreadPool.Reachable` | externals/httplib/httplib.h:597-668 | all of it holds in every state of every interleaving |
| `ThreadPool.NoLostWakeup` | externals/httplib/httplib.h:609-650 | jobs enqueued are jobs taken followed by jobs queued, and while a worker sleeps there are at least as many workers on their way to the queue and producers about to notify as queued jobs |
| `ThreadPool.AllJobsRun` | externals/httplib/httplib.h:618-655 | if nothing is enqueued after the shutdown, all workers exited means every job was run as often as it was enqueued |
| `ThreadPool.JoinNotStuck` | externals/httplib/httplib.h:618-655 | once the shutdown waits for the workers, each that has not exited can go on, or the thread that holds the mutex can and gives it back |
| `ThreadPool.JoinEnds` | externals/httplib/httplib.h:618-655 | once nothing is enqueued any more, the steps that can still be taken are bounded by the queued jobs and the workers' places |
| `ClientSocket.StepInv` | externals/httplib/httplib.h:6772-6869 | every step keeps the request mutex, the stacks of open calls and the in-flight counter in agreement |
| `ClientSocket.CloseIsSafe` | externals/httplib/httplib.h:6704-6734 | a thread that closes the socket satisfies the assertion there, and no other thread has a request in flight |
| `ClientSocket.SafeInEveryRun` | externals/httplib/httplib.h:6704-6869 | in every interleaving the counter is the number of open frames of the request-mutex holder and every close is safe |
| `ClientSocket.StopRemembered` | externals/httplib/httplib.h:7865-7886 | the deferred close is pending if and only if a stop met a request in flight and no attempt has begun since |
| `ClientSocket.EndOfAttempt` | externals/httplib/httplib.h:6843-6858 | a pending stop leaves the socket closed when the attempt ends; without one a kept connection stays |
| `ClientSocket.OpenExactly` | externals/httplib/httplib.h:6782-6869 | in every run the socket is open if and only if the last attempt had one and no failed, unkept or stopped attempt, handler or idle stop has closed it since |
| `ClientSocket.StopClosesExactly` | externals/httplib/httplib.h:6772-6886 | when a request that was in flight at a stop returns, the socket is open if and only if an attempt that began after the stop had one and nothing has closed it since |
| `ClientSocket.StopClosesUnnested` | externals/httplib/httplib.h:7865-7886 | a stop during a request that makes no nested call and is not retried leaves the socket closed when the request returns |
| `ClientSocket.NestedCallForgetsStop` | externals/httplib/httplib.h:6772-6869 | a run in which a nested call resets the flag and the stop is forgotten |
| `ClientSocket.RetryForgetsStop` | externals/httplib/httplib.h:6775-6778 | a run with one call of `send` in which the retry resets the flag and the stop is forgotten |
| `ClientSocket.AtMostTwoAttempts` | externals/httplib/httplib.h:6772-6780 | one call of `send` begins at most two attempts, whatever nested calls and other threads do |
| `ProfilerTicks.Unpack` | externals/microprofile/microprofile.h:825-854 | packing keeps type and timer and the low 48 bits of the tick |
| `ProfilerTicks.DifferenceOfFields` | externals/microprofile/microprofile.h:856-862 | the shifted subtraction is the representative between -2^47 and 2^47 of the fields' difference |
| `ProfilerTicks.DifferenceIsExact` | externals/microprofile/microprofile.h:856-862 | for packed true ticks the difference is the true one if and only if they lie less than half a period apart |
| `ProfilerRing.GetRange` | externals/microprofile/microprofile.h:1481-1498 | the two ranges, one after the other, are the walk from `nGet` to `nPut` around the ring |
| `ProfilerRing.RunKeeps` | externals/microprofile/microprofile.h:1387-1402 | after any writes and flips the ring holds the last entries in their slots, a frame never fills it, and the frame table holds the last frame starts |
| `ProfilerRing.WindowIs` | externals/microprofile/microprofile.h:1560-1661 | a flip's window is the slots of exactly the entries accepted between two flips, none in the first three |
| `ProfilerRing.IntactExactly` | externals/microprofile/microprofile.h:1387-1402 | for entries that differ, a stretch is read back unaltered if and only if it is empty or the ring has not gone around past its beginning |
| `ProfilerRing.WindowsTile` | externals/microprofile/microprofile.h:1560-1661 | while the frames of the delay fit the ring, the flips replay every accepted entry once, unaltered, in the order of writing |
| `ProfilerRing.AcceptedExactly` | externals/microprofile/microprofile.h:1391-1402 | in every run a write is dropped if and only if it would be entry number `size` since the last flip, and otherwise accepted as it is |
| `ProfilerRing.FrameKeepsFirst` | externals/microprofile/microprofile.h:1391-1402 | a frame keeps its first size - 1 entries and loses exactly what comes after |
| `ProfilerRing.ThreadLog.LogPut` | externals/microprofile/microprofile.h:1387-1402 | an entry goes into the next slot, or is dropped where it would reach the last flip's position (`ProfilerRing.AcceptedExactly` says in every run which) |
| `ProfilerRing.ThreadLog.FlipFrame` | externals/microprofile/microprofile.h:1560-1616 | the frame table and `nGet` take the write position, and the window is chosen |
| `ProfilerReplay.ExclusiveConserved` | externals/microprofile/microprofile.h:1683-1750 | no entry, balanced or not, makes or loses an exclusive tick against the open child slots |
| `ProfilerReplay.FlipContinues` | externals/microprofile/microprofile.h:1618-1769 | clearing the counters before a flip and accumulating them after it continues one long replay |
| `ProfilerReplay.FlipConserves` | externals/microprofile/microprofile.h:1618-1769 | the same over all threads that add to the shared counters in one flip |
| `ProfilerReplay.ConservedOverFlips` | externals/microprofile/microprofile.h:1618-1769 | over any flips of any threads the exclusive ticks of all timers are the ticks in the threads' child slots up to their stack positions |
| `ProfilerReplay.TopSlot` | externals/microprofile/microprofile.h:1718-1729 | the lowest child slot grows by exactly the ticks of the leaves that return to depth 0, whatever the log |
| `ProfilerReplay.ExclusiveIsTopTime` | externals/microprofile/microprofile.h:1618-1769 | with no timer open in any thread, the exclusive ticks over all flips are the top-level time, whatever was logged |
| `ProfilerFlip.ThreadStack.Enter` | externals/microprofile/microprofile.h:1696-1706 | a push with the next child slot cleared and the group's depth counted |
| `ProfilerFlip.ThreadStack.LeaveTimer` | externals/microprofile/microprofile.h:1723-1746 | a pop that adds the ticks to the parent's slot and tells whether the group's outermost timer ended |
| `ProfilerFlip.ReplayEntry` | externals/microprofile/microprofile.h:1693-1748 | one entry on the arrays is one step of the replay on values (`ProfilerTimers.TimerIsTrueTime` and `ProfilerGroups.GroupTicksAreCoveredTime` say what the steps add up to) |
| `ProfilerFlip.ReplayWindow` | externals/microprofile/microprofile.h:1687-1750 | the loops over both ranges replay the whole window in order |
| `ProfilerFlip.Accumulate` | externals/microprofile/microprofile.h:1751-1769 | the totals grow by the counters of the flip |
| `ProfilerFlip.FlipThread` | externals/microprofile/microprofile.h:1560-1769 | a flip moves the frame on, replays the window into cleared counters and accumulates them |
| `ProfilerGroups.GroupTicksAreCoveredTime` | externals/microprofile/microprofile.h:1696-1755 | for a well-nested log a group's ticks are the number of ticks that its closed timers cover, outside a timer of the group that is still open |
| `ProfilerGroups.ExclusiveIsBusyTime` | externals/microprofile/microprofile.h:1683-1756 | with every timer left, the exclusive ticks add up to the time during which some timer was running |
| `ProfilerTimers.OwnTimeIs` | externals/microprofile/microprofile.h:1723-1735 | a timer's own time is the time during which one of its closed intervals is innermost |
| `ProfilerTimers.TimerIsTrueTime` | externals/microprofile/microprofile.h:1696-1750 | for a well-nested log a timer's ticks are the lengths of its closed intervals, its count their number, and its exclusive ticks its own time |
| `ProfilerRun.ReplayInSlots` | externals/microprofile/microprofile.h:1683-1750 | replaying from the ring, with slots on the stack, is replaying from a log that never wraps as long as the entries are still there |
| `ProfilerRun.RunInStep` | externals/microprofile/microprofile.h:1387-1769 | in every run with room the ring, the windows and the counters do what one replay of the accepted entries does |
| `ProfilerRun.TotalsAreTrueTime` | externals/microprofile/microprofile.h:1387-1769 | in such a run the accumulated group ticks are covered time and the exclusive ticks are busy time |
| `ProfilerRun.TimersAreTrueTime` | externals/microprofile/microprofile.h:1387-1769 | and every timer's accumulated ticks, count and exclusive ticks are those of its intervals |
| `ProfilerPool.CreateFromFree` | externals/microprofile/microprofile.h:1173-1180 | a create takes the first free log off the list |
| `ProfilerPool.ExitFrees` | externals/microprofile/microprofile.h:1209-1237 | an exit puts the thread's log, emptied, at the head of the list |
| `ProfilerPool.SecondExitLoops` | externals/microprofile/microprofile.h:1225-1229 | a second exit with the same log makes the list endless |
| `ProfilerPool.BeginKeeps` | externals/microprofile/microprofile.h:1170-1207 | a create keeps the pool sound and grows it if and only if no log is free |
| `ProfilerPool.PoolKept` | externals/microprofile/microprofile.h:1170-1237 | after any creates, writes, flips and single exits the list ends, has no log twice, is exactly the inactive logs, all empty and none the GPU's; no log has two threads; the pool has one log more than the most threads alive at a time |
| `ProfilerPool.Profiler.CreateThreadLog` | externals/microprofile/microprofile.h:1170-1196 | the create on the pool's objects is the create on values, and returns the log handed out |
| `ProfilerPool.Profiler.OnThreadExit` | externals/microprofile/microprofile.h:1209-1237 | the log is found in the pool and freed, and its column of the frame table, and no other, becomes zero |
| `ProfilerPool.Profiler.FlipGets` | externals/microprofile/microprofile.h:1601-1616 | every log's read position takes its write position, which becomes its frame start, zero where there is no log |
| `ProfilerThreads.LogsReplayed` | externals/microprofile/microprofile.h:1646-1760 | replaying the logs one after the other into shared counters leaves each log's stacks as its own replay does and adds what its own replay adds |
| `ProfilerThreads.IdleIs` | externals/microprofile/microprofile.h:1170-1237 | a log that has seen only flips is a log as it is handed out in that frame |
| `ProfilerThreads.ThreadsFollowed` | externals/microprofile/microprofile.h:1170-1790 | in every run of any number of threads each log in use is what its thread's own run leaves, each free log is empty, and the counters are the sums over all threads, ended or not |
| `ProfilerThreads.OwnEntries` | externals/microprofile/microprofile.h:1225-1235 | a thread's log is the ring of its own history, also when another thread had the log before, and all that it accepts and replays the thread itself has recorded |
| `ProfilerThreads.ThreadsTrueTime` | externals/microprofile/microprofile.h:1601-1790 | for well-nested threads whose needed entries stay in the ring, a group's ticks are the sum, over all threads that ever were, of the time its timers cover |
| `ProfilerThreads.ThreadsTimerTime` | externals/microprofile/microprofile.h:1601-1790 | and a timer's ticks, count and exclusive ticks are the sums over all threads of the lengths, number and own time of its intervals |
| `ProfilerThreads.ThreadsBusyTime` | externals/microprofile/microprofile.h:1601-1790 | and with no timer open the exclusive ticks are the sum of the threads' busy times |
| `Resampler.Steps` | src/audio_core/interpolate.cpp:32-44 | the index reached leaves two samples of history, never lies beyond the position, and the output fits |
| `Resampler.NextInStep` | src/audio_core/interpolate.cpp:18-51 | a call continues the batch, keeps exactly the unused samples, and stops early only for lack of input |
| `Resampler.StreamingIsBatch` | src/audio_core/interpolate.cpp:18-51 | for any cutting of input and output, sample k is the kernel at position p0 + k * step over history and all input, and the state is the rest of that one sequence |
| `Resampler.LeftoverIsInput` | src/audio_core/interpolate.cpp:46-50 | input left by one call may as well arrive with the next |
| `Resampler.Fill` | src/audio_core/interpolate.cpp:32-44 | the loop writes the samples of the call and nothing else |
| `Resampler.Interpolator.StepOverSamples` | src/audio_core/interpolate.cpp:18-51 | a call on the fields is a call on values; the position does not underflow |
| `LinearInterpolation.LerpIsExact` | src/audio_core/interpolate.cpp:60-74 | the wrapping product and the truncation equal the integer formula rounded down, and the value lies between the two samples |
| `LinearInterpolation.LinearStream` | src/audio_core/interpolate.cpp:60-74 | however input and output are cut, output sample k is the integer interpolation of the one input sequence at position p0 + k * step |
| `LinearInterpolation.NoneStream` | src/audio_core/interpolate.cpp:53-58 | without interpolation it is the input sample at or before that position |
| `Adpcm.NeededInFrames` | src/audio_core/codec.cpp:35-37 | the bytes of n samples lie in the frames that they occupy |
| `Adpcm.Compose` | src/audio_core/codec.cpp:16-80 | decoding on from a frame border with the history reached there is decoding in one go |
| `Adpcm.OnlyPrefix` | src/audio_core/codec.cpp:35-73 | only those bytes matter |
| `Adpcm.InRange` | src/audio_core/codec.cpp:52-58 | every sample and the carried history are 16-bit numbers |
| `Adpcm.SampleLaw` | src/audio_core/codec.cpp:32-73 | sample k, over the raw bytes: its two's-complement nibble scaled, rounded and filtered with the header's coefficient pair over the two samples before it, floored and saturated to 16 bits; and the history left is the last two samples |
| `Adpcm.StaysInRange` | src/audio_core/codec.cpp:46-52 | with coefficient sizes that add up to at most 49152 no intermediate of the filter leaves 32 bits |
| `Adpcm.BoundIsSharp` | src/audio_core/codec.cpp:46-52 | for coefficients of any sign every nibble, scale and history stays inside 32 bits if and only if the lowest and the highest possible sum do |
| `Adpcm.DecodeSample` | src/audio_core/codec.cpp:46-60 | one nibble through the filter, clamped, with the feedback advanced (`Adpcm.SampleLaw` spells the filter out) |
| `Adpcm.DecodeFrame` | src/audio_core/codec.cpp:37-74 | a frame continues the samples, by pairs, up to the count |
| `Adpcm.DecodeADPCM` | src/audio_core/codec.cpp:16-80 | in both channels every sample of the even-sized result obeys that filter law over the raw bytes, and the state carries the last two samples |

## Left out

- The `W;` form, the wide-character copy and the error messages of the option scanner.
- Getopt.Scanner.ReadShort: characters above 127 are reported as their unsigned value, where a signed `char` would be negative; the `W;` form is not modelled.
- Getopt.Scanner.Next: requires an option string without the `W;` form, whose code moves `optind` by its own rules.
- Getopt.Scanner.Run: requires an option string without the `W;` form, whose code moves `optind` by its own rules.
- GetoptLaws.CommandLine: long options begin with two dashes; where a single dash is allowed too, `GetoptLaws.LongLaw`, `GetoptLaws.LongWrong` and `GetoptLaws.LongOnlyShort` speak of one element.
- Sockets, polling, TLS, compression, memory mapping and file serving of the HTTP library; the socket is an arbitrary byte source that returns between one and n bytes.
- ChunkedStream.SocketStream.Read: a socket that is not readable in time, and a read error, are not modelled.
- ChunkedStream.LineReader.GetLine: a read error (as opposed to the end of the stream) is not modelled.
- ChunkedStream.ReadContentWithLength: the receiver accepts everything and there is no progress callback.
- ChunkedStream.ReadTrailerLines: trailer lines are kept as they are instead of being split into header fields.
- ChunkedStream.ReadContentChunked: trailer lines are kept as they are, and the receiver accepts everything.
- ChunkedStream.ChunkedWriter.SinkWrite: writes to the socket succeed and there is no compressor, since both are calls into other code.
- ChunkedStream.ChunkedWriter.SinkDone: there are no trailers, and writes to the socket succeed.
- ChunkedStream.ChunkedWriter.WriteContentChunked: the provider does not fail and the server is not shutting down.
- Chunked.RoundTrip: `ULONG_MAX` is the parameter `max`, and writes are shorter than it.
- The regular expression engine: the two patterns are matched by hand-written functions; lookups in a parameter multimap return the first pair inserted, and parsed parameters are kept in the order of the text.
- MultipartCut.WhatIsLeft: requires that the text of a boundary line stands nowhere else in the form; `MultipartCut.OnlyAtMarksExactly` gives that condition item by item, and `MultipartLost.RoundTripExactly` does without it.
- Request routing, the `Get`, `Post` and `Put` overloads, setters, status texts and tables of the HTTP library: thin wrappers and finite tables.
- ThreadPool.Reachable: a job is an opaque value and ends when it likes; exceptions out of jobs are not modelled.
- ClientSocket.SafeInEveryRun: connecting, proxying and redirects are one step with an arbitrary outcome.
- The profiler's user interface, dumps, web server, GPU queries and context-switch tracing; the GPU log's tick fix-up before its replay; the meta counters; per-frame maxima and the aggregate copies.
- ProfilerReplay.ConservedOverFlips: 64-bit totals are unbounded integers, and a pause, which resets the stack positions, is not modelled.
- ProfilerRun.TotalsAreTrueTime: one thread (`ProfilerThreads.ThreadsTrueTime` has all of them); requires that window and open enters are still in the ring at every flip, and at most 31 open timers, as the source's arrays do.
- ProfilerFlip.ReplayEntry: meta entries change nothing, since the meta counters are not modelled.
- ProfilerFlip.Accumulate: adds up the counters; the per-frame maxima and the meta sums are not modelled.
- ProfilerFlip.FlipThread: one thread without meta counters, maxima and aggregate copies; requires at most 31 open timers, since the next push would clear a child slot behind the array.
- ProfilerPool.Profiler.OnThreadExit: does not clear the log's group counters; `ProfilerThreads.Emptied` does so on values.
- ProfilerThreads.ThreadsFollowed: the limit of 32 logs and the GPU's tick fix-up are not modelled, and what a thread records after its last replayed window is not counted, as in the source.
- Resampler.Interpolator.StepOverSamples: the step is a natural number instead of a floating-point rate, and the position does not overflow 64 bits.
- Adpcm.DecodeSample: computes with unbounded integers; `Adpcm.BoundIsSharp` says exactly when the 32-bit code agrees for every input.
- PCM8 and PCM16 decoding, the time stretcher, the audio and input devices: element-wise maps and device code.
