# khttpd: protocols, parsers and searches

This project models the parts of the khttpd C++ framework that carry real state or real
branching, and proves what each is for:

- **Server-sent events.** The byte parser (`SseParser`) agrees with a whole-stream reading in the
  sense of the WHATWG HTML standard, sections 9.2.5 and 9.2.6 (`SseReading`), however the stream is
  cut; `SseFields` says what every kind of line does to it. The formatter (`SseFormat`) is its inverse
  (`SseRoundTrip`); the concurrent session (`SseSession`) puts whole accepted events on the wire in
  order, and closing it leads to a finished stream (`SseClosing`); together (`SseEndToEnd`) a client
  receives exactly the events whose `send` returned true.
- **Chunked responses.** The frames of the chunked writer (`ChunkedResponse`), in every interleaving
  of the producer threads and the strand, decode by section 7.1 of RFC 9112 (`ChunkedCoding`), and
  the body is what `write_chunk` answered true for (`ChunkedRuns`). `BufferedBody` is the accumulator
  of a buffered request body.
- **Cron.** A Gregorian calendar with `mktime` (`CronCalendar`), field parsing with eight-bit numbers
  (`CronField`, `CronExpression`, and `CronTexts` on what `*`, numbers and names are read as), and the
  recursive search over a mutated time: its steps (`CronSteps`, `CronDays`, `CronSearch`), what it
  computes for every expression and start (`CronFind`), and the methods that compute it (`CronNext`).
  `CronSound` says when a reported time matches, `CronPasses`, `CronEarliest` and `CronKept` when no
  minute with a match is passed over, `CronSecond` when the reported second is the earliest, and
  `CronWitness` gives the failing runs.
- **WebSocket** write and close protocol (`WebSocket`, `WebSocketRuns`), the **DI container**
  (`DiContainer`), **multipart** forms (`Multipart`, `MultipartRoundTrip`, `MultipartLaws`), **routes**
  (`RoutePattern`, `RouteParsing`, `Router`, `RouteLaws`), the streaming **proxy** (`Proxy`,
  `ProxyRuns`) and the weighted **host pool** (`HostPool`).
- `Basics`, `Digits` and `Text` hold shared vocabulary.

Objects that the program updates are classes with the same fields. For the concurrent ones a
datatype `State` and a function `Next` give every critical section and every strand callback as one
step; the class methods are proved to take exactly those steps, and the theorems are about all runs.
Completions, errors, and the answers of the socket are arbitrary inputs of the steps. Thrown errors
are values. Bytes are characters.

Some of the properties that one would expect do not hold of the code; the models keep the code as it
is, and the exact condition is proved instead:

- An empty buffer given to the chunk writer ends the message (`DecodesIffNoEmptyBuffer`).
- With both day fields restricted, the cron search can report a time that does not match. It reports
  only matches, from every start, if and only if there is no date with an admitted clock from which
  the day scan comes back to the same day of the month, in an admitted month, without landing on a
  match (`SoundIff`, `NextSoundIff`). There is none if one of the two day fields admits every day
  (`FreeNeverMisses`). "0 0 0 31 * THU" and "0 0 9 13 * FRI" have one each (`ThursdayMissed`,
  `FridayMissed`).
- A cron search can pass over a whole month: "0 0 0 * 2 *" from 31 January finds the February of the
  next year (`FebruaryPassedOver`). The month stage lands in the month it sets if and only if the
  day of the month exists there (`MonthLandsIff`). In one search no minute with a match is passed
  over if and only if every month that was set was kept, or had no day to offer (`Kept`,
  `NextKeptIff`); from every start, if and only if no day is handed to the month stage that loses a
  month (`NonePassedIff`).
- A cron search can report a later second than the first of its minute: "10,30 5 * * * *" from second
  15 of a full hour finds second 30 (`SecondLost`). In a later minute than the start the first
  admitted second is reported if and only if the first frame did not advance the second to another
  admitted one and then land on a match at once (`SecondIff`); with the months kept this decides
  whether the reported time is the earliest match (`EarliestIff`, `NextEarliestIff`).
- A cron increment whose first step passes 255 comes round and sets other values
  (`VisitsWhatIsMeant`, `LargeStepComesRound`).
- A day that is named twice in a field, as in MON,MON or MON-MON, makes the field invalid, because only
  its first occurrence is replaced (`RepeatedDay`).
- A WebSocket session that closes itself with a queued frame is never reported closed and stays in
  the registry (`SelfCloseIsSilent`, `SelfCloseHappens`); a closed session is reported if and only
  if it sent no close frame (`ReportedIff`).
- A WebSocket close that is postponed behind a write stays postponed for good if and only if that
  write then fails (`PostponedForGood`, `ClosePostponedForGood`, `RestIsFinal`).
- A buffer pushed after the last chunk of a chunked response is written behind it, and can be in flight
  beside the next request (`LateFramesFollow`, `LateWriteHappens`); if none is, the reported
  response is the end (`QuietUnlessLate`).
- A multipart form without parts is read as such at once if and only if no delimiter follows a blank
  line in its epilogue (`EmptyForm`).
- Route captures are what was filled in only if every parameter but the last is followed by a literal
  with a '/' in it (`RecoversIffSeparated`).

## Model

| member | source | states |
|---|---|---|
| SseReading.CutResumes | framework/sse/sse_parser.cpp:79-96 | cutting a text into lines at CRLF, CR or LF can be suspended after any character and resumed with what was left over, a CR at the seam swallowing a following LF |
| SseReading.RestIsOneLine | framework/sse/sse_parser.cpp:79-96 | no line, and no unfinished rest, contains a line break |
| SseReading.ResumeIsInterpret | framework/sse/sse_parser.cpp:79-98 | line-by-line reading with its per-line limit checks fails or yields exactly what cutting everything first and interpreting the lines yields |
| SseReading.ReadResumes | framework/sse/sse_parser.cpp:49-101 | reading a stream can be suspended after any byte and resumed from the events, fields and held text so far, byte order mark included |
| SseReading.FailureSticks | framework/sse/sse_parser.cpp:83-84 | once a prefix exceeds a limit, every continuation does |
| SseReading.NothingHeldAfterCr | framework/sse/sse_parser.cpp:63-66 | after a final CR nothing is held, so dropping a leading LF of the next bytes is right |
| SseFields.FieldRead | framework/sse/sse_parser.cpp:117-121 | `name: value`, `name:value` with a value that does not start with a space, and `name` alone for an empty value all give exactly that value |
| SseFields.FieldLine | framework/sse/sse_parser.cpp:116-132 | such a line, padded or not, replaces the event name, adds value and LF to the data unless that exceeds the limit, replaces the id unless the value holds a NUL, and an unknown name does nothing |
| SseFields.RetryLine | framework/sse/sse_parser.cpp:133-143 | a retry of decimal digits is set, one of more than 64 bits clears it, any other is ignored |
| SseFields.OtherLine | framework/sse/sse_parser.cpp:79-116 | a comment does nothing; a line over the limit fails |
| SseFields.BlankLine | framework/sse/sse_parser.cpp:105-115 | data are dispatched without their last LF, under "message" if unnamed; without data nothing is; event, data and retry are cleared and the id is kept |
| SseFields.UnpaddedData | framework/sse/sse_parser.cpp:49-144 | the stream of one line `data:value` and a blank line is received as one event with that value |
| SseFields.MarkDropped | framework/sse/sse_parser.cpp:67-77 | the bytes EF BB BF at the start are not part of the text |
| SseParser.SseParser.ProcessLine | framework/sse/sse_parser.cpp:103-144 | the in-place update of data, event, id and retry, and its length errors, are the reading of one line, which `SseFields` states for each kind of line; the three texts stay within the limit |
| SseParser.SseParser.AppendChunk | framework/sse/sse_parser.cpp:58-77 | the buffer after a chunk is exactly the text still to be interpreted, after the carried-over LF and the byte order mark are dropped |
| SseParser.SseParser.ProcessLines | framework/sse/sse_parser.cpp:79-98 | the inner loop does what the whole-buffer reading does, and leaves at most limit bytes |
| SseParser.SseParser.Feed | framework/sse/sse_parser.cpp:49-101 | a call throws the length error exactly when the stream fed so far exceeds a limit; otherwise the events returned so far are those of the whole-stream reading (one unpadded data line: `UnpaddedData`); the chunk loop ends because room is always left |
| SseParser.SseParser.Reset | framework/sse/sse_parser.cpp:146-154 | a reset parser stands at the start of a stream, whatever came before |
| SseParser.ReadAll | framework/client/sse_client.cpp:112-133 | fragmentation independence: for every way of cutting a stream the emitted events are those of the whole stream, and one cut throws iff every cut does |
| SseFormat.SingleLine | framework/sse/sse_parser.cpp:10-16 | no CR or LF is left, and a text without them is not changed |
| SseFormat.SingleLineJoins | framework/sse/sse_parser.cpp:10-16 | exactly the CRs and LFs are removed, wherever they stand |
| SseFormat.AppendDataLines | framework/sse/sse_parser.cpp:18-31 | one data line for each piece between line breaks of the data |
| SseFormat.FormatEvent | framework/sse/sse_parser.cpp:34-43 | the text is the event's lines, each ended by LF, and a blank line |
| SseFormat.FormatComment | framework/sse/sse_parser.cpp:45-47 | the text is ": ", the comment on one line, and a blank line |
| SseRoundTrip.PiecesNormalize | framework/sse/sse_parser.cpp:18-31 | rejoining the pieces of the data with LF is replacing CRLF and CR by LF |
| SseRoundTrip.ReadRetryLine | framework/sse/sse_parser.cpp:39-39 | every 64-bit retry is recovered from its decimal line |
| SseRoundTrip.ReadEventItem | framework/sse/sse_parser.cpp:34-43 | one formatted event is received as one event with normalised fields, or the reader fails because a limit is exceeded |
| SseRoundTrip.RoundTrip | framework/sse/sse_parser.cpp:34-47 | for every list of events and comments: the reader fails iff an item exceeds its limits; else it receives exactly the events in order, with the last-id rule and the name "message", and holds nothing |
| SseSession.StepKeepsInv | framework/sse/sse_session.cpp:35-186 | every critical section and every completion keeps accounting, order, exclusivity, wake-up and handler invariants |
| SseSession.ReachableInv | framework/sse/sse_session.cpp:35-186 | the invariants hold in every reachable state |
| SseSession.OrderedDelivery | framework/sse/sse_session.cpp:70-120 | in every run the wire is a prefix of the accepted values joined, and all of them once the stream is asked to finish |
| SseSession.NoLostWakeup | framework/sse/sse_session.cpp:47-120 | a started, unclosed session with nothing in flight and no thread owing a call has written everything and was not asked to close |
| SseSession.WriterComesToRest | framework/sse/sse_session.cpp:84-120 | every wake-up, issue and completion strictly reduces the work left |
| SseSession.PendingBytesNeverWrap | framework/sse/sse_session.cpp:70-119 | pending_bytes is the sum of the queued sizes and within the limit; a completion never subtracts more than was added |
| SseSession.EndIsFinal | framework/sse/sse_session.cpp:122-136 | after `finish` nothing reopens the session, changes its error, accepts a value or runs an earlier handler |
| SseSession.HandlersRunAtMostOnce | framework/sse/sse_session.cpp:122-186 | no close handler runs twice, and after the end the last registered one has run |
| SseSession.Impl.RequestStart | framework/sse/sse_session.cpp:35-48 | only the first request of an open session starts the stream |
| SseSession.Impl.OnStarted | framework/sse/sse_session.cpp:47-58 | a failed start ends the session with its error and hands out the stored handler; otherwise it is started and a wake-up is owed |
| SseSession.Impl.Enqueue | framework/sse/sse_session.cpp:70-82 | accepts iff the session is open and the size fits the limit; an accepted value joins the queue and its size is accounted |
| SseSession.Impl.WriteNext | framework/sse/sse_session.cpp:84-105 | decides under the mutex: nothing, to write the front value, or to finish a closing session with an empty queue |
| SseSession.Impl.OnWritten | framework/sse/sse_session.cpp:106-119 | a failed write ends the session with its error and hands out the stored handler; otherwise the front value leaves the queue and the accounting, the writer is free and a wake-up is owed |
| SseSession.Impl.End | framework/sse/sse_session.cpp:122-136 | `finish` takes effect once and hands out the stored handler |
| SseSession.Impl.RequestClose | framework/sse/sse_session.cpp:164-171 | sets `closing` and owes one more wake-up, whatever the state; the queue, the other flags and the wire stay |
| SseSession.Impl.SetCloseHandler | framework/sse/sse_session.cpp:176-186 | `on_close` stores the handler, or has it run at once after the end |
| SseClosing.RunFlags | framework/sse/sse_session.cpp:35-171 | in every run: closing iff `close` was called, started iff the response started, ended iff a start or a write failed, the finish completed, or the session was aborted |
| SseClosing.RunError | framework/sse/sse_session.cpp:122-136 | an ended session keeps the error of what ended it first |
| SseClosing.StartIsDue | framework/sse/sse_session.cpp:35-58 | an open session that was asked to start has started, or its start is due |
| SseClosing.AcceptsIff | framework/sse/sse_session.cpp:70-82 | a value is accepted iff the session is neither closing nor ended and the sizes of the queue with it fit the limit |
| SseClosing.Drains | framework/sse/sse_session.cpp:84-120 | from every reachable state the writer alone, all its operations succeeding, comes to rest |
| SseClosing.ClosingEnds | framework/sse/sse_session.cpp:84-171 | in every run in which the response started and `close` was called, a session at rest has ended; if no operation failed and nobody aborted, the finish was issued and the wire is all of the accepted values |
| SseClosing.CloseLeadsToFinish | framework/sse/sse_session.cpp:84-171 | from every state of a started, open session a call of `close` and successful operations lead to an ended session whose wire is exactly what was accepted before |
| SseEndToEnd.SendRunIsRun | framework/sse/sse_session.cpp:158-163 | a run of sends accepts exactly the formatted texts of the items whose send returned true |
| SseEndToEnd.SessionWire | framework/sse/sse_session.cpp:152-186 | the wire of any run is a prefix of the text of the accepted items, all of it once finishing |
| SseEndToEnd.PrefixEvents | framework/sse/sse_parser.cpp:49-101 | a reader of a prefix has received a prefix of the events |
| SseEndToEnd.EndToEnd | framework/sse/sse_session.cpp:152-186 | in every run the client has received a prefix of the accepted events, and exactly those events from a gracefully closed stream |
| Digits.RenderRoundTrip | framework/session/http_session.cpp:756-757 | a number rendered in base 10 or 16 reads back as itself |
| ChunkedCoding.FrameHead | framework/session/http_session.cpp:756-757 | the hex header of a frame reads back as the buffer's length, followed by data and CRLF |
| ChunkedCoding.DecodeFrame | framework/session/http_session.cpp:754-764 | RFC 9112 section 7.1 decodes a frame of a non-empty buffer to it, and then goes on |
| ChunkedCoding.DecodeMessage | framework/session/http_session.cpp:754-781 | a finished message decodes to the buffers before the first empty one, and what follows is left over |
| ChunkedCoding.DecodesIffNoEmptyBuffer | framework/session/http_session.cpp:754-781 | it decodes to all buffers with exactly what follows the message left over iff no buffer is empty |
| ChunkedResponse.StepKeepsInv | framework/session/http_session.cpp:726-819 | every step of producer and strand keeps the one-writer, order, report and wake-up invariants |
| ChunkedResponse.OneWriteAtATime | framework/session/http_session.cpp:739-752 | a posted writer never finds a write in flight, in any interleaving |
| ChunkedResponse.FramesLeaveInOrder | framework/session/http_session.cpp:784-801 | frames are issued in push order |
| ChunkedResponse.ReportedResponseDecodes | framework/session/http_session.cpp:784-819 | success is reported at most once and before any error, and from then on the wire starts with the message, which decodes to the accepted buffers iff none was empty |
| ChunkedResponse.QuietUnlessLate | framework/session/http_session.cpp:754-819 | if no buffer was pushed after the last chunk, a reported success is never followed by an error, nothing is left to write or in flight, and the wire holds the message alone |
| ChunkedResponse.LateFramesFollow | framework/session/http_session.cpp:754-801 | buffers pushed after the last chunk stand behind it on the wire |
| ChunkedResponse.LateWriteHappens | framework/session/http_session.cpp:739-819 | such a buffer can be in flight after success was reported, beside the next request |
| ChunkedResponse.AtRestReported | framework/session/http_session.cpp:770-819 | at rest after the handler returned, the response was reported, as written or with an error |
| ChunkedResponse.WriterComesToRest | framework/session/http_session.cpp:784-819 | every step but a push strictly reduces the work left |
| ChunkedResponse.ChunkWriteState.WriteBuffer | framework/session/http_session.cpp:754-765 | answers true iff no write has failed; then exactly this buffer's chunk joins the queue, the buffer counts as accepted, or as late if the last chunk is queued, and a wake-up is owed; otherwise nothing changes |
| ChunkedResponse.ChunkWriteState.PushLastChunk | framework/session/http_session.cpp:775-779 | pushes the last chunk and marks it queued |
| ChunkedResponse.ChunkWriteState.ScheduleWrite | framework/session/http_session.cpp:739-752 | posts the writer iff none is active |
| ChunkedResponse.ChunkWriteState.TakeChunk | framework/session/http_session.cpp:784-801 | takes the oldest frame, or stops the writer and reports once |
| ChunkedResponse.ChunkWriteState.OnChunkWritten | framework/session/http_session.cpp:803-818 | a failed write is recorded and reported once; otherwise the next frame is taken |
| ChunkedRuns.PushRunIsRun | framework/session/http_session.cpp:754-781 | what a run accepts are exactly the buffers whose push was answered true, in order, before or after the last chunk |
| ChunkedRuns.RunAnswers | framework/session/http_session.cpp:754-781 | every run has such lists of answers |
| ChunkedRuns.BodyIsWhatWasPushed | framework/session/http_session.cpp:754-819 | once success was reported the recipient decodes the buffers answered true before the handler returned, up to the first empty one; all of them iff none was empty |
| ChunkedRuns.ReportedAtRest | framework/session/http_session.cpp:770-819 | in every run in which the handler returned, a writer at rest has reported: success once, with everything pushed on the wire, if no write failed, and an error if one did |
| ChunkedRuns.ResponseCompletes | framework/session/http_session.cpp:739-819 | from every reachable state of a running handler without a failed write, returning and successful writes lead to one reported success and the message of exactly what was accepted |
| BufferedBody.BodyReader.OnRead | framework/session/http_session.cpp:205-220 | a piece is taken iff the body still fits the limit; the buffer never exceeds the limit, so the subtraction cannot wrap |
| BufferedBody.BodyReader.ReadBody | framework/session/http_session.cpp:191-220 | however a body is cut: refused iff the pieces before the first failed read exceed the limit, else closed if a read failed, else taken whole |
| CronCalendar.NextDayNumber | framework/cron/croncpp.hpp:471-498 | the next day has the next day number and the next weekday |
| CronCalendar.CarryDaysSameDay | framework/cron/croncpp.hpp:239-239 | carrying overflowing days into months and years keeps the day |
| CronCalendar.MktimeSameInstant | framework/cron/croncpp.hpp:239-239 | normalisation keeps the instant that the overflowing fields add up to |
| CronCalendar.LaterMonth | framework/cron/croncpp.hpp:500-529 | a later month of a year is a later instant |
| CronCalendar.LaterYear | framework/cron/croncpp.hpp:500-529 | a later year is a later instant |
| CronField.NumeralRead | framework/cron/croncpp.hpp:320-326 | a decimal numeral below 256 is read as its value |
| CronField.RangeRead | framework/cron/croncpp.hpp:338-369 | "n-m" within the limits is read as that range |
| CronField.ValueRead | framework/cron/croncpp.hpp:338-369 | "n" within the limits is read as the range from n to n |
| CronField.EntryRead | framework/cron/croncpp.hpp:380-416 | an entry, with or without "/d", is read as its range and increment, a lone value with an increment running to the maximum |
| CronField.SetEntry | framework/cron/croncpp.hpp:389-415 | the 8-bit loop ends for every increment from 1 to 255 and sets exactly the visited bits, keeping those set before |
| CronField.VisitsWhatIsMeant | framework/cron/croncpp.hpp:413-415 | the visited values are the arithmetic progression the text means iff the first step does not pass 255 |
| CronField.LargeStepComesRound | framework/cron/croncpp.hpp:413-415 | "59/200" also sets second 3 |
| CronField.SetCronField | framework/cron/croncpp.hpp:371-418 | the in-place parse leaves the bits of all entries, or reports the first problem; `FieldMeans`, `FieldVerdict` and `StarField` say what those bits are |
| CronField.FieldMeans | framework/cron/croncpp.hpp:371-418 | a parsed field admits exactly the values one of its entries means |
| CronField.FieldAdmitsSome | framework/cron/croncpp.hpp:371-418 | a field that parses admits at least one value |
| CronField.StepExpression | framework/cron/croncpp.hpp:371-418 | "n-m/d" is always accepted and means n, n+d, ... up to m iff its first step does not pass 255 |
| CronExpression.MakeCron | framework/cron/croncpp.hpp:682-711 | every expression that parses has six fields that each admit a value, which is what the search needs |
| CronExpression.MakeCronMeans | framework/cron/croncpp.hpp:682-711 | each of the six sets of a parsed expression admits exactly what the entries of its own text mean, names and "?" replaced first, if no first step of an entry passes 255; `CronTexts` says what the texts are read as |
| CronTexts.StarRead | framework/cron/croncpp.hpp:338-369 | "*" is read as the whole range of its field, "*/d" as the steps of d from the lowest value |
| CronTexts.StarField | framework/cron/croncpp.hpp:371-395 | the field "*" is accepted and admits every value |
| CronTexts.NumberRead | framework/cron/croncpp.hpp:320-326 | a number may follow blanks and a sign, and what follows it is ignored; it is cut down to eight bits, and refused from 2^64 on |
| CronTexts.NoNumber | framework/cron/croncpp.hpp:320-326 | without a digit in that place the number is refused |
| CronTexts.RangeVerdict | framework/cron/croncpp.hpp:338-369 | "n-m" is that range, or refused with exactly the error of the first check that fails |
| CronTexts.ValueVerdict | framework/cron/croncpp.hpp:338-369 | "n" is that value, or refused as above the maximum or below the minimum |
| CronTexts.IncrementVerdict | framework/cron/croncpp.hpp:396-415 | "/n" behind a range is refused iff n is 0 in eight bits; otherwise it steps through the range, up to the maximum unless the range has a '-' |
| CronTexts.FieldVerdict | framework/cron/croncpp.hpp:371-418 | a field is accepted iff it is not empty, does not end with a comma, and each of its entries is accepted |
| CronTexts.NameRead | framework/cron/croncpp.hpp:328-336 | a name among text without letters is replaced by its number |
| CronTexts.NamesRead | framework/cron/croncpp.hpp:328-336 | two different names, in a range or a list, are both replaced |
| CronTexts.RepeatedName | framework/cron/croncpp.hpp:328-336 | of a name that occurs twice only the first occurrence is replaced |
| CronTexts.RepeatedDay | framework/cron/croncpp.hpp:420-436 | so MON-MON and MON,MON are refused, for every day |
| CronTexts.DayRead | framework/cron/croncpp.hpp:420-436 | the name of a day, in either case, is its number counted from Sunday |
| CronTexts.MonthRead | framework/cron/croncpp.hpp:446-460 | the name of a month, in either case, is its number |
| CronTexts.DayRangeRead | framework/cron/croncpp.hpp:420-436 | MON-FRI and its like are read as the range of the two numbers |
| CronTexts.PlainFields | framework/cron/croncpp.hpp:420-460 | fields without letters stay as they are, but "?" is "*" for both day fields |
| CronTexts.FieldsFirst | framework/cron/croncpp.hpp:688-691 | fields are separated by any number of spaces |
| CronTexts.ExpressionVerdict | framework/cron/croncpp.hpp:682-711 | an expression is accepted iff it has six fields and each, against the limits of its place, is accepted |
| CronTexts.StarAdmitsAll | framework/cron/croncpp.hpp:682-711 | in an accepted expression a field "*", and "?" for a day, admits every value |
| CronTexts.SixStars | framework/cron/croncpp.hpp:682-711 | "* * * * * *" is accepted, and so admits every time |
| CronSteps.NextSetBit | framework/cron/croncpp.hpp:461-469 | the first set bit from an offset on, or the width |
| CronSteps.Tm.AddToField | framework/cron/croncpp.hpp:471-498 | one more in a field, normalised |
| CronSteps.Tm.SetField | framework/cron/croncpp.hpp:500-529 | a field written, normalised; a written weekday has no effect |
| CronSteps.Tm.ResetAllFields | framework/cron/croncpp.hpp:562-567 | every marked field at its lowest value, the others unchanged |
| CronSteps.Tm.FindNextField | framework/cron/croncpp.hpp:574-593 | the field moves to its next admitted value, carrying if there is none above; the returned value is admitted, and is the old one iff that was admitted |
| CronDays.FindNextDay | framework/cron/croncpp.hpp:595-615 | the scan stops at the first matching day, or after 366 days |
| CronDays.ScanFinds | framework/cron/croncpp.hpp:595-615 | with a day field that admits everything the scan finds a match within 93 days, on another day of the month if it moved |
| CronDays.ScanMatchesIffWithinReach | framework/cron/croncpp.hpp:595-615 | for any expression the scan ends on a match iff one lies within 366 days |
| CronSearch.StepSecond | framework/cron/croncpp.hpp:624-631 | the second stage reaches an admitted second, and moves forward if it moves |
| CronSearch.StepMinute | framework/cron/croncpp.hpp:633-642 | the minute stage, with its resets, moves forward if it moves, and never carries from minute 0 |
| CronSearch.StepHour | framework/cron/croncpp.hpp:644-653 | the hour stage moves forward if it moves, and never carries from hour 0 |
| CronSearch.StepMonth | framework/cron/croncpp.hpp:667-673 | the month stage moves forward in spite of month lengths, leap days and the year carry |
| CronSearch.MinuteAhead | framework/cron/croncpp.hpp:633-642 | a re-entry after the minute stage starts later and still within reach, for every expression |
| CronSearch.HourAhead | framework/cron/croncpp.hpp:644-653 | a re-entry after the hour stage starts later and still within reach, for every expression |
| CronSearch.DayAhead | framework/cron/croncpp.hpp:655-665 | a re-entry after the day stage starts later and within reach, for every expression, whether the scan found its day or not |
| CronSearch.BeforeHorizon | framework/cron/croncpp.hpp:673-673 | every frame starts before the ninth year after the first, which bounds the recursion |
| CronDays.MatchComes | framework/cron/croncpp.hpp:595-615 | a day that both day fields admit comes by the end of the second year after any date, which bounds searches whose scan misses |
| CronDays.ScanPassesNone | framework/cron/croncpp.hpp:595-615 | for any expression the scan passes over no matching day |
| CronSound.MatchStays | framework/cron/croncpp.hpp:617-679 | a search that starts at a match reports it |
| CronSound.PassesUnadmittedIff | framework/cron/croncpp.hpp:655-665 | from a date with an admitted clock the day stage passes on a date that its clock and day fields do not admit iff the scan moved, came back to the same day of the month, and did not land on a matching day whose midnight is admitted |
| CronSound.MissReported | framework/cron/croncpp.hpp:655-679 | from such a date, with the landing month admitted, the search reports the landing, which does not match and lies later |
| CronSound.SoundIff | framework/cron/croncpp.hpp:617-679 | for every expression: the search reports only matches, from every start, iff there is no such date |
| CronSound.FreeNeverMisses | framework/cron/croncpp.hpp:595-615 | there is none if one of the two day fields admits every value |
| CronPasses.SecondPasses | framework/cron/croncpp.hpp:624-631 | the second stage passes over no match before the minute it lands in |
| CronPasses.MinutePasses | framework/cron/croncpp.hpp:633-642 | the minute stage passes over no match |
| CronPasses.HourPasses | framework/cron/croncpp.hpp:644-653 | the hour stage passes over no match |
| CronPasses.DayPasses | framework/cron/croncpp.hpp:655-665 | the day stage passes over no match, for every expression |
| CronPasses.MonthLandsIff | framework/cron/croncpp.hpp:667-673 | from a date in a month that is not admitted the month stage lands on the first of the month it sets iff the day of the month exists there, and else on the first of the month after |
| CronPasses.MonthPassesIff | framework/cron/croncpp.hpp:667-673 | the month stage passes over no match iff it did not overflow or both day fields admit no day of the month it set |
| CronEarliest.Kept | framework/cron/croncpp.hpp:617-679 | for every expression and start: no minute between the start and the end of a search has a match iff every month set on the way was kept or offered no day |
| CronKept.LossReported | framework/cron/croncpp.hpp:655-679 | a day that the day stage hands on to a month stage that loses a month makes the search pass over a minute with a match |
| CronKept.NonePassedIff | framework/cron/croncpp.hpp:617-679 | for every expression: no search, from any start, passes over a minute with a match iff there is no such day |
| CronSecond.SecondIff | framework/cron/croncpp.hpp:624-679 | for every expression: a match reported in a later minute stands at the first admitted second iff it is not the case that the first frame advanced the second past the first admitted one and led to a match at once |
| CronSecond.EarliestIff | framework/cron/croncpp.hpp:617-679 | for every expression: a reported match is the earliest at or after the start, to the second, iff the months were kept and no advanced second was lost on the way to another minute |
| CronNext.FindNext | framework/cron/croncpp.hpp:617-679 | for every expression with a value in each field the recursion ends, and result and time are those of the search function, which never moves back, reports only admitted months and gives up only past the fourth year |
| CronNext.SearchMinute | framework/cron/croncpp.hpp:633-642 | the minute stage: an admitted minute is kept and marked, otherwise the whole search is re-entered; the later stages then go on from its result |
| CronNext.SearchHour | framework/cron/croncpp.hpp:644-653 | the same for the hour |
| CronNext.SearchDay | framework/cron/croncpp.hpp:655-665 | the same for the day, re-entered only if the day of the month changed |
| CronNext.SearchMonth | framework/cron/croncpp.hpp:667-679 | the same for the month, with the year limit |
| CronNext.CronNext | framework/cron/croncpp.hpp:713-751 | for every expression: the result is strictly later than the argument; it matches unless the scan can miss; no minute in between has a match iff every month set was kept; nothing is reported only past the fourth year |
| CronNext.SearchLater | framework/cron/croncpp.hpp:617-679 | a search that does not start at a match moves on, so asking whether the time is still the same asks whether it matched |
| CronNext.NextSoundIff | framework/cron/croncpp.hpp:713-729 | whatever is found matches, from every start, iff the day scan never comes back to the same day of the month without a match |
| CronNext.NextKeptIff | framework/cron/croncpp.hpp:713-729 | no time strictly after the argument and before the minute of the result matches iff every month that was set was kept |
| CronNext.NextEarliestIff | framework/cron/croncpp.hpp:713-729 | a matching result is the earliest match after the argument, to the second, iff the months were kept and no advanced second was lost |
| CronNext.NothingForFourYears | framework/cron/croncpp.hpp:673-673 | a search that gives up, its months kept, has shown that nothing matches until the end of the fourth year |
| CronWitness.ThursdayMissed | framework/cron/croncpp.hpp:595-665 | "0 0 0 31 * THU" from 1 March 2027 reports 1 March 2028, which does not match |
| CronWitness.FridayMissed | framework/cron/croncpp.hpp:655-665 | "0 0 9 13 * FRI" from 13 January 2026, 09:00, reports the midnight of Friday 13 February, when only nine o'clock is admitted |
| CronWitness.FebruaryPassedOver | framework/cron/croncpp.hpp:574-679 | "0 0 0 * 2 *" from 31 January of any year reports 1 February of the year after, although that of the same year matches |
| CronWitness.SecondLost | framework/cron/croncpp.hpp:624-642 | "10,30 5 * * * *" from second 15 of a full hour reports second 30 of minute 5, although second 10 matches |
| WebSocket.StepKeepsInv | framework/websocket/websocket_session.cpp:123-303 | every strand step keeps the write, close, order and notice invariants |
| WebSocket.CloseProtocol | framework/websocket/websocket_session.cpp:123-303 | in every run writing_ holds iff an operation is in flight, none is started beside another, frames leave in order, at most one close is started and nothing after it, close_pending_ implies closed_, and at most one notice is given |
| WebSocket.IdleHasSentAll | framework/websocket/websocket_session.cpp:123-180 | an open session that is not writing has handed every queued frame to the stream |
| WebSocket.ClosedAtRest | framework/websocket/websocket_session.cpp:243-303 | a closed session at rest has closed its stream iff the stream was not found shut and no close is left postponed |
| WebSocket.PostponedForGood | framework/websocket/websocket_session.cpp:243-303 | in every run, a close is left postponed at rest iff the session ended during the write of a frame, which is no close frame and the last one written, and that write failed |
| WebSocket.ClosePostponedForGood | framework/websocket/websocket_session.cpp:243-303 | that happens: a text is being written, reading fails, and then the write does |
| WebSocket.ReportedIff | framework/websocket/websocket_session.cpp:161-302 | in every run, a closed session was reported, once, and is out of the registry iff it sent no close frame; otherwise it was not reported and is still registered |
| WebSocket.RestIsFinal | framework/websocket/websocket_session.cpp:123-303 | from a closed session at rest no operation is ever started, so a close left postponed is never issued |
| WebSocket.SelfCloseIsSilent | framework/websocket/websocket_session.cpp:161-168 | a session closed by a queued close frame is never reported as closed and stays registered |
| WebSocket.SelfCloseHappens | framework/websocket/websocket_session.cpp:161-168 | opening and sending a close frame leads there |
| WebSocket.Fragments | framework/websocket/websocket_session.cpp:193-206 | the buffers of a long message join to its payload, all of 16384 bytes but the last |
| WebSocket.WebsocketSession.SendFrame | framework/websocket/websocket_session.cpp:123-135 | a closed session is not changed; otherwise exactly this frame joins what was accepted, at once written if nothing is being written, and else queued last |
| WebSocket.WebsocketSession.DoWriteNext | framework/websocket/websocket_session.cpp:137-183 | takes the oldest frame, or stops and carries out a postponed close |
| WebSocket.WebsocketSession.OnWrite | framework/websocket/websocket_session.cpp:243-255 | a failed write ends the session and stops the writer; otherwise the next frame is written |
| WebSocket.WebsocketSession.CloseStream | framework/websocket/websocket_session.cpp:257-268 | closes an open stream |
| WebSocket.WebsocketSession.EndSession | framework/websocket/websocket_session.cpp:270-302 | `do_close` takes effect once, and postpones the close behind a write |
| WebSocket.WebsocketSession.OnReadFailed | framework/websocket/websocket_session.cpp:85-99 | a failed or closed read ends the session, at most once |
| WebSocket.WebsocketSession.OnHandshake | framework/websocket/websocket_session.cpp:34-79 | a failed handshake ends the session; otherwise it is registered and read |
| WebSocketRuns.RunTakes | framework/websocket/websocket_session.cpp:123-135 | in every run the accepted frames are exactly those of the sends that found the session open, in order |
| WebSocketRuns.TakenAreWritten | framework/websocket/websocket_session.cpp:123-255 | in every run the stream was given a prefix of them, and all of them when the session is open and not writing |
| WebSocketRuns.ClosedIff | framework/websocket/websocket_session.cpp:34-302 | in every run a session is closed iff its handshake, a read or a write failed, or it sent a close frame |
| WebSocketRuns.StreamIsClosed | framework/websocket/websocket_session.cpp:243-303 | if no write failed and the stream was never found shut, a closed session that is not writing has closed its stream or sent a close frame |
| WebSocketRuns.QueueDrains | framework/websocket/websocket_session.cpp:137-255 | from every state of an open session successful writes hand over every queued frame, or a close frame on the way |
| DiContainer.ShownFault | framework/di/di_container.hpp:60-76 | a chain of dependencies that meets a missing type, itself, or a throwing constructor refutes that its start can be resolved |
| DiContainer.ChainMade | framework/di/di_container.hpp:81-91 | every chain of dependencies from a made component runs through components made before it: it is buildable and never repeats |
| DiContainer.FoundIsResolvable | framework/di/di_container.hpp:49-97 | what was resolved was resolvable |
| DiContainer.CacheDoesNotMatter | framework/di/di_container.hpp:54-58 | with a cache built under the present registry, resolvability is a property of the registry alone |
| DiContainer.Container.Resolve | framework/di/di_container.hpp:49-97 | resolution ends; at the top level it succeeds iff everything reachable is registered, constructible and acyclic; each type is made at most once, arguments are the shared cached components, nothing cached is lost, no type is left marked on success or failure, and a failure names its chain |
| DiContainer.Container.Make | framework/di/di_container.hpp:78-96 | the marked factory call, with clean-up when it throws |
| DiContainer.Container.MakeArguments | framework/di/di_container.hpp:41-43 | the arguments, resolved in any order, are the cached components of their types |
| DiContainer.Container.RegisterComponent | framework/di/di_container.hpp:30-47 | the factory of the type is replaced, the cache is not touched |
| DiContainer.Container.Clear | framework/di/di_container.hpp:99-104 | everything is forgotten |
| Text.FindIsFirst | framework/context/http_context.cpp:30-30 | the search finds the first occurrence, and none only if there is none |
| Multipart.TrimSplits | framework/context/http_context.cpp:16-23 | trimming takes blanks off both ends and leaves none there |
| Multipart.ScanPart | framework/context/http_context.cpp:235-310 | for any body, malformed or not, a round of the scan stays in bounds and strictly moves on |
| Multipart.Form.ParseMultipartData | framework/context/http_context.cpp:189-314 | the caches answer for exactly the parts of the body: the last value of each field, all files of each name in order; parsing again changes nothing |
| Multipart.Form.ScanAll | framework/context/http_context.cpp:234-311 | the loop stores exactly the parts of the scan |
| Multipart.Form.Store | framework/context/http_context.cpp:292-304 | a field replaces the one of its name, a file joins those of its name |
| MultipartRoundTrip.FirstHeaderAlone | framework/context/http_context.cpp:26-47 | the first header of a block comes back as its whole line |
| MultipartRoundTrip.SecondHeader | framework/context/http_context.cpp:26-47 | a later header comes back trimmed and without its name |
| MultipartRoundTrip.DispositionRead | framework/context/http_context.cpp:276-290 | the pattern search finds the name and the file name of a disposition line |
| MultipartRoundTrip.NoStraddle | framework/context/http_context.cpp:252-264 | a delimiter with a CR-free boundary cannot start inside data that do not contain it |
| MultipartRoundTrip.PartsScanned | framework/context/http_context.cpp:234-311 | the scan of assembled parts recovers them all, in order, and stops at the closing delimiter |
| MultipartRoundTrip.RoundTrip | framework/context/http_context.cpp:189-314 | every assembled form with at least one part, a CR-free boundary, quotable names, data without the delimiter and a preamble without it is read back as its parts |
| MultipartRoundTrip.EmptyForm | framework/context/http_context.cpp:225-262 | a form without parts is left at the first round, and read as none, iff no delimiter follows a blank line in its epilogue |
| MultipartRoundTrip.BoundaryRead | framework/context/http_context.cpp:194-217 | the boundary of a content type is read back, bare or quoted |
| MultipartLaws.BoundaryIff | framework/context/http_context.cpp:194-217 | a content type names a boundary iff it speaks of form data and of a boundary |
| MultipartLaws.NoPartsRead | framework/context/http_context.cpp:189-234 | without a content type, a boundary, or its delimiter in the body no parts are read |
| MultipartLaws.HeaderAbsent | framework/context/http_context.cpp:26-47 | a header that is not there has the empty value |
| MultipartLaws.PartKinds | framework/context/http_context.cpp:266-304 | a block without a disposition is no part, one without a name adds nothing, one with a file name adds one file of that type, and any other one field |
| MultipartLaws.RoundEnds | framework/context/http_context.cpp:234-311 | a round goes on behind the next delimiter, and is the last exactly if it met a part and that delimiter closes the form |
| RoutePattern.MatchSound | framework/router/http_router.cpp:510-525 | captures are admitted values, and put back into the pattern they rebuild the path |
| RoutePattern.MatchComplete | framework/router/http_router.cpp:128-138 | if any admitted values fill the pattern to the path, it matches, and captures as much as possible from the left |
| RoutePattern.MatchIff | framework/router/http_router.cpp:510-512 | a path matches iff some admitted values fill the pattern up to it |
| RoutePattern.FitsOnce | framework/router/http_router.cpp:133-137 | with every parameter separated from the next by a literal with a '/', at most one list of values fits |
| RoutePattern.FitsTwice | framework/router/http_router.cpp:133-137 | otherwise two lists of values fill the pattern up to the same path |
| RoutePattern.RecoversIffSeparated | framework/router/http_router.cpp:128-138 | all admitted values are recovered iff the parameters are so separated |
| RouteParsing.CutIsFirst | framework/router/http_router.cpp:109-113 | a pattern is cut at its leftmost parameter, and nothing is lost |
| RouteParsing.PiecesCover | framework/router/http_router.cpp:112-143 | literals and parameters as written join to the pattern |
| RouteParsing.PatternShaped | framework/router/http_router.cpp:128-142 | literals never adjoin, and exactly the last parameter is a tail |
| RouteParsing.CountSegments | framework/router/http_router.cpp:114-127 | the loop counts the maximal runs without '/' |
| RouteParsing.CountParams | framework/router/http_router.cpp:98-105 | the first pass counts the parameters |
| RouteParsing.ParsePathPattern | framework/router/http_router.cpp:85-163 | the loop yields the tokens, names, literal segments and parameters of the pattern |
| RouteLaws.ColonParam | framework/router/http_router.cpp:91-92 | :name is a parameter, up to the end of the name |
| RouteLaws.BraceParam | framework/router/http_router.cpp:91-92 | {name} is a parameter |
| RouteLaws.NoParam | framework/router/http_router.cpp:91-92 | without a name, or with an open brace, nothing is |
| RouteLaws.PatternRoundTrip | framework/router/http_router.cpp:106-143 | a pattern written from texts and parameters of either spelling is read as exactly those pieces |
| RouteLaws.TokenAt | framework/router/http_router.cpp:114-142 | texts match literally, a parameter with others behind it is a segment, the last one a tail |
| RouteLaws.NamesAsWritten | framework/router/http_router.cpp:128-138 | the parameter names are as written, in order |
| RouteLaws.TailTakesAll | framework/router/http_router.cpp:133-137 | a tail takes everything left of one line, be it empty |
| RouteLaws.SegmentTakesRun | framework/router/http_router.cpp:133-137 | a segment takes a non-empty run without '/' |
| Router.Sort | framework/router/http_router.cpp:206-206 | a sorted arrangement of the same routes |
| Router.FirstMatchIsFirst | framework/router/http_router.cpp:360-367 | in a sorted table no match is strictly more specific than the first |
| Router.BindLast | framework/router/http_router.cpp:518-525 | a parameter is bound to the value of its last occurrence |
| RouteLaws.LiteralGoesFirst | framework/router/http_router.hpp:76-85 | a pattern with a word for its last segment goes before the one with a parameter there |
| RouteLaws.HandlerStored | framework/router/http_router.cpp:469-547 | a registered handler answers its own kind and method, HEAD falls back on GET unless streamed, and nothing else changes |
| RouteLaws.BindOnly | framework/router/http_router.cpp:518-525 | only the parameters of the pattern are bound |
| RouteLaws.BaseStrips | framework/router/http_router.cpp:71-76 | the base is the path without its trailing slashes |
| RouteLaws.UnderBase | framework/router/http_router.cpp:78-83 | under a base "/" stands for the base itself, a pattern with a slash is put behind it, any other is refused; without one every pattern stands for itself |
| Router.HttpRouter.SetBasePath | framework/router/http_router.cpp:71-76 | trailing slashes go; a path without a leading slash is refused |
| Router.HttpRouter.Register | framework/router/http_router.cpp:78-210 | exactly the route of that path gains or replaces exactly that handler; the table stays sorted with one route for a path; a rejected pattern changes nothing |
| Router.HttpRouter.Dispatch | framework/router/http_router.cpp:505-547 | the handler run belongs to a route that settles the request, no such route is strictly more specific, and its parameters rebuild the path; "method not allowed" and "not found" exactly otherwise |
| Router.HttpRouter.IsStreamRoute | framework/router/http_router.cpp:360-367 | true iff the first match has a stream handler for the method |
| Router.HttpRouter.DispatchStream | framework/router/http_router.cpp:388-406 | the first match decides, as in `is_stream_route`: handled iff it has a stream handler for the method; that handler runs, and its parameters rebuild the path |
| Router.HttpRouter.DispatchAsync | framework/router/http_router.cpp:469-490 | the first match decides: handled iff it has a handler for the method, HEAD falling back on GET; that handler runs, and its parameters rebuild the path |
| Proxy.StepKeepsInv | framework/client/http_proxy_session.cpp:94-185 | every completion, of whichever operation, keeps one operation under way, conservation and the single report |
| Proxy.BufferKept | framework/client/http_proxy_session.cpp:94-167 | while a write is under way nothing else is; the only step that can follow is its completion, and the buffers stay as they are |
| Proxy.PumpRead | framework/client/http_proxy_session.cpp:94-116 | after a read the buffer holds exactly what the target still misses |
| Proxy.PumpWritten | framework/client/http_proxy_session.cpp:101-110 | after a write nothing is missing at the target |
| Proxy.Conservation | framework/client/http_proxy_session.cpp:79-185 | in every run what was forwarded is a prefix of the body, one operation is under way until the one report, and a reported success has forwarded both bodies whole |
| ProxyRuns.FailureIsReported | framework/client/http_proxy_session.cpp:79-185 | in every run a failure is the last completion and its code the one report; without one nothing but success is reported |
| ProxyRuns.GetsThrough | framework/client/http_proxy_session.cpp:79-185 | for all bodies and non-empty buffers there is a run that reports success, so both bodies get through whole |
| Proxy.HttpProxySession.OnRequestRead | framework/client/http_proxy_session.cpp:95-116 | after a read the data stand at the front of the request buffer; data are written upstream next, an empty last piece ends the request, an empty other one is read past; the invariant is kept |
| Proxy.HttpProxySession.OnRequestWritten | framework/client/http_proxy_session.cpp:100-110 | after a write upstream the next read follows, or the end of the request after the last piece; an error completes the session; the invariant is kept |
| Proxy.HttpProxySession.OnResponseRead | framework/client/http_proxy_session.cpp:145-167 | the same for the response buffer and the downstream side |
| Proxy.HttpProxySession.OnResponseWritten | framework/client/http_proxy_session.cpp:150-160 | after a write downstream the next read follows, or the end of the response; an error completes the session; the invariant is kept |
| Proxy.HttpProxySession.OnConnected | framework/client/http_proxy_session.cpp:85-91 | once connected the request is pumped, or an error completes the session |
| Proxy.HttpProxySession.OnRequestFinished | framework/client/http_proxy_session.cpp:118-126 | once the request is finished the response head is read, or an error completes the session |
| Proxy.HttpProxySession.OnHeadRead | framework/client/http_proxy_session.cpp:128-133 | once the head is read the downstream response is started, or an error completes the session |
| Proxy.HttpProxySession.OnResponseStarted | framework/client/http_proxy_session.cpp:134-141 | once started the response is pumped, or an error completes the session |
| Proxy.HttpProxySession.OnResponseFinished | framework/client/http_proxy_session.cpp:153-163 | the end of the response completes the session with its code |
| Proxy.HttpProxySession.FinishSession | framework/client/http_proxy_session.cpp:175-185 | `finish` takes effect once |
| HostPool.LowerBound | framework/client/host_pool.cpp:29-31 | the first element not below the draw |
| HostPool.DrawsPartition | framework/client/host_pool.cpp:25-32 | every draw from 1 to the total has exactly one host |
| HostPool.ExactShare | framework/client/host_pool.cpp:7-14 | exactly max(1, weight) of the possible draws pick a host |
| HostPool.Pool.Ascending | framework/client/host_pool.cpp:7-14 | the running totals are strictly increasing |
| HostPool.Pool.AddAll | framework/client/host_pool.cpp:10-14 | the constructor loop builds the urls and the running totals |
| HostPool.Pool.Pick | framework/client/host_pool.cpp:16-33 | picks the owner of the draw, the only host, or "" |

## Left out

- CronNext.CronNext: both overloads are one method, whose time is not meant to be used when nothing is found; an invalid time from `mktime` is not modelled.
- CronNext.FindNext: the stages of a frame are separate methods.
- CronSteps.Tm.AddToField: only increments by one, the only ones there are; no invalid-time error.
- CronExpression.MakeCron: standard traits only; NUL characters, which end a C string, are not modelled.
- CronCalendar.MktimeSameInstant: no time zones and no daylight-saving jumps.
- SseParser.SseParser.Feed: a limit equal to the largest `size_t`, and feeding on after a thrown length error, are not modelled.
- ChunkedCoding.DecodeMessage: chunk extensions and trailers, which the writer never produces, are not decoded.
- ChunkedResponse.LateWriteHappens: the next request, and what becomes of two writes on one connection, are not modelled.
- WebSocket.WebsocketSession.SendFrame: a ping or pong payload that is too long to be sent is not modelled.
- WebSocket.CloseProtocol: at most one notice, not exactly one, because a queued close frame suppresses it.
- DiContainer.Container.Resolve: single-threaded use only; constructors that call the container themselves are not modelled.
- MultipartRoundTrip.RoundTrip: at least one part, because right after the first delimiter the closing one is not recognised (`EmptyForm`); Content-Disposition is the first header.
- MultipartRoundTrip.EmptyForm: what is read from an epilogue with a stray delimiter is not stated.
- RoutePattern.MatchIff: the regular expression engine is modelled as a backtracking matcher on the tokens it is built from.
- Router.HttpRouter.Register: the three registration functions share one method; route documentation and typed routes are not modelled.
- Router.HttpRouter.Dispatch: the static file fallback and errors thrown by handlers are not modelled.
- Proxy.Conservation: header filtering and cancellation are not modelled; a cancelled operation completes with an error.
- HostPool.Pool.Pick: the random engine is replaced by a parameter; the total fits an `int`.
- The WebSocket client queue, SSE client reconnection state, `HttpClient`, static files, cookies, interceptors, OpenAPI pages, controllers, JSON conversion and cron timers.
- Sockets, TLS, resolver, Beast parsers and serialisers, thread pool, signals and logging: they appear only as completions in any order.
