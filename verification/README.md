# BLEConsole trip tracker — a Dafny model

BLEConsole talks to an RV trip-tracker device over Bluetooth LE. The device
answers text commands (`#0 LE?`, `#0 LD?3;`, `#0 SC?`, `#0 SS=42;` …)
with notifications. Some notifications are short text answers
(`LegEventCounts=4,2`, `SyncRange=10,17`). Others are binary records: a
header `VH=`, `TP=`, `ED=` or `SyncData=` carries the record's length in
hex, then a newline, then the first bytes; continuation notifications
carry the rest. Once a record is complete, the console decodes it with
.NET `BinaryReader` into a `VehicleInfo`, `TripInfo`, `EventInfo` or
`Event2Info`, and files it. A polling loop (`ProcessPendingWork`) sends the
follow-up requests, and at the end hands the collected records to the
Excel writer.

The project models that core as pure functions and proves properties about it.

- `wire.dfy` (`Wire`): bytes, little-endian 32-bit integers, C#
  `unchecked` int wrap-around (`Wrap32`), ASCII text, and `Result`/`Option`.
- `reader.dfy` (`Reader`): the `BinaryReader` calls. A read past the end
  fails; each read undoes the matching write.
- `text.dfy` (`Text`): `IndexOf`, `Split`/`Join`, and `Convert.ToInt32` in
  base 10 and 16, with the hex parse wrapping to a negative `int`.
- `vehicle.dfy`, `trip.dfy`, `event.dfy`, `event2.dfy`: one decoder per
  record class, with an encoder and a round-trip lemma
  (`Decode(Encode(x) + rest) == Ok((x, rest))`). This includes the seven
  `Event2Info` kinds and the variable-length description, tow, GPS and
  generator sections.
- `reassembly.dfy` (`Reassembly`): header parsing (the field after `=`,
  the hex length, the bytes after the first newline) and the three
  reassembly registers.
- `dayfetch.dfy` (`DayFetch`): `TripTracker.Characteristic_ValueChanged`
  as `Handle`.
- `sync.dfy` (`IncrementalSync`): `TripTrackerSync.Characteristic_ValueChanged`
  as `Handle`.
- In both of these, a session is any interleaving of notifications
  (`Notify`) and loop passes (`Poll`), starting from `Initialize`. A C#
  exception is `Raised(state)`: the static fields keep whatever was
  assigned before the throw.
- `commands.dfy` (`Commands`): the command texts, `RequestTripData`,
  `RequestEventData`, and the `SS=` cursor advance.
- `pending.dfy` (`PendingWork`): one pass of the `ProcessPendingWork` loop.
- `report.dfy` (`TripReport`): `ExcelWriter.AppendToTripDetailTable`, in
  three parts:
  - its row plan: which trip and event rows are written, in what order;
  - the cells `InsertTripRowIntoTable` fills;
  - the type letters (`S`/`E`/`D`/`A`) and the cash codes (`C`/`G`/`P`/`R`)
    of `InsertEventRowIntoTable`.

Local time is GMT seconds plus 3600 · TZ offset, as `DateTime.AddHours` gives it. The rows carry it in seconds next to the GMT seconds and the offset (`TripReport.TripRowSides`, `TripReport.EventRowShowsRecord`).

Notes on what the code does:

- Bytes beyond the declared length stay in the buffer, and the decoder
  ignores them (`ChunksComplete`).
- An event response with an unknown type tag files nothing. The handler
  logs it and still runs the completion check (`DayFetch.FileEvent`,
  `IncrementalSync.CompleteOutcome`).
- The day-fetch completion test ignores the vehicle. It needs
  `TripInfo.Count >= NumLegs + 1` and `EventInfo.Count >= NumEvents`, and it
  does not run after a vehicle is decoded (`DayFetch.CheckComplete`).
- A header that arrives while a response is still being assembled restarts
  the buffer (`HeaderStartsResponse`). A continuation with no response
  active is ignored (`ChunkAppends`).
- A counts or range answer that arrives mid-response is also appended to
  that response's buffer, because the continuation test only checks the
  flag.
- A header that holds its whole record does not set the in-progress flag.
  When no response was being assembled, that record is never decoded
  (`DayFetch.WholeResponseInHeader`). When an interrupted response left the
  flag set, the flag stays set, so the next plain notification is appended
  and the buffer is then decoded (`HeaderStartsResponse`, `ChunkAppends`).
- A decode error throws with the record lists unchanged, and the loop keeps
  polling.
- A failed write stops the request loop, and the polling loop goes on.
- The sessions are a sleep-and-poll loop.
- Before each trip the code writes at most one event that started earlier;
  the remaining events go at the end. A trip is written only when the next
  waiting event is not earlier than its start (`TripReport.PlanWritten`).

## Model

| member | source | states |
|---|---|---|
| Wire.Wrap32 | BLEConsole/TripTracker.cs:236 | the `int` arithmetic on the remaining-length register wraps: the result is a 32-bit int congruent to the exact value mod 2^32, and equal to it when in range |
| Wire.UInt32Bytes | BLEConsole/TripInfo.cs:54-56 | four little-endian bytes that `ReadUInt32` reads back as the same unsigned value |
| Wire.UInt32BytesOf | BLEConsole/TripInfo.cs:54-56 | any four bytes are the encoding of the unsigned value they hold (the encoding is onto) |
| Wire.Int32Bytes | BLEConsole/TripInfo.cs:58-59 | four little-endian two's-complement bytes that `ReadInt32` reads back as the same signed value |
| Wire.Int32BytesOf | BLEConsole/TripInfo.cs:58-59 | any four bytes are the encoding of the signed value they hold |
| Wire.TextOfBytesOf | BLEConsole/VehicleInfo.cs:32 | ASCII text written as bytes and read with `ReadChars` is the same text |
| Wire.BytesOfTextOf | BLEConsole/VehicleInfo.cs:32 | ASCII bytes read as chars and written back are the same bytes |
| Reader.ReadByte | BLEConsole/VehicleInfo.cs:42 | fails exactly on an empty buffer; otherwise yields the first byte and the rest |
| Reader.ReadChar | BLEConsole/TripInfo.cs:48-52 | fails at end of stream and on a non-ASCII byte; otherwise yields that char and the rest |
| Reader.ReadUInt32 | BLEConsole/TripInfo.cs:54 | fails exactly when fewer than 4 bytes remain; otherwise consumes exactly 4 |
| Reader.ReadInt32 | BLEConsole/TripInfo.cs:58 | fails exactly when fewer than 4 bytes remain; otherwise consumes exactly 4 |
| Reader.ReadDouble | BLEConsole/TripInfo.cs:61 | fails exactly when fewer than 8 bytes remain; otherwise consumes exactly 8 |
| Reader.ReadChars | BLEConsole/VehicleInfo.cs:32 | fails when fewer than n bytes remain or any is non-ASCII; otherwise yields those n chars and the rest |
| Reader.ReadDoubles | BLEConsole/VehicleInfo.cs:33-41 | n consecutive doubles succeed exactly when 8n bytes remain, and consume exactly 8n |
| Reader.ReadDoublesBytes | BLEConsole/VehicleInfo.cs:33-41 | reading written doubles recovers them and stops where they end |
| Reader.DoublesBytesRead | BLEConsole/VehicleInfo.cs:33-41 | writing read doubles gives back the bytes they came from |
| Reader.ReadCharsBytes | BLEConsole/VehicleInfo.cs:32 | `ReadChars` undoes the writing of ASCII text and leaves the rest |
| Reader.ReadByteBytes | BLEConsole/VehicleInfo.cs:42 | `ReadByte` undoes writing a byte |
| Reader.ReadUInt32Bytes | BLEConsole/TripInfo.cs:54 | `ReadUInt32` undoes writing an unsigned 32-bit value |
| Reader.ReadInt32Bytes | BLEConsole/TripInfo.cs:58 | `ReadInt32` undoes writing a signed 32-bit value |
| Reader.ReadDoubleBytes | BLEConsole/TripInfo.cs:61 | `ReadDouble` undoes writing a double |
| Text.IndexOf | BLEConsole/TripTracker.cs:231-235 | the first position of the char, or none exactly when it does not occur |
| Text.PrefixesExclusive | BLEConsole/TripTracker.cs:190-216 | two prefixes that differ at a position both reach never open the same text |
| Text.Split | BLEConsole/TripTracker.cs:193-195 | at least one piece, and no piece contains the separator |
| Text.JoinSplit | BLEConsole/TripTracker.cs:193-195 | joining the pieces of a split gives back the text |
| Text.SplitJoin | BLEConsole/TripTracker.cs:193-195 | splitting joined separator-free pieces gives back the pieces |
| Text.IndexOfJoined | BLEConsole/TripTracker.cs:231-235 | the first newline of `header + "\n" + rest` is right after the header |
| Text.ParseInt32 | BLEConsole/TripTracker.cs:196-197 | a parsed value is always a 32-bit int; empty text never parses |
| Text.DigitsValueOf | BLEConsole/TripTracker.cs:196-197 | the digits of a number have that number as their value |
| Text.ParseFormatDecimal | BLEConsole/TripTracker.cs:196-197 | `Convert.ToInt32` of a number printed in decimal is that number |
| Text.ParseFormatHex | BLEConsole/TripTracker.cs:228 | `Convert.ToInt32(_, 16)` of an unsigned value in hex is that value wrapped to a signed int |
| Text.DecimalIsAscii | BLEConsole/TripTracker.cs:129 | a number printed in a command is ASCII |
| Text.FormatDecimalAvoids | BLEConsole/TripTracker.cs:129 | a printed number contains no `;`, `,`, `=` or any other non-digit besides `-` |
| Reassembly.HeaderField | BLEConsole/TripTracker.cs:226-227 | the text between the first `=` and the first newline after it; none exactly when there is no `=` |
| Reassembly.DeclaredLength | BLEConsole/TripTracker.cs:228 | the header's hex length, always a 32-bit int |
| Reassembly.InitialBytes | BLEConsole/TripTracker.cs:231-235 | the bytes after the first newline, or nothing without one |
| Reassembly.FirstPiece | BLEConsole/TripTracker.cs:226-227 | the first piece of a split is the text up to the first separator |
| Reassembly.Begin | BLEConsole/TripTracker.cs:236-239 | the buffer restarts with the initial bytes, the remaining count is the declared length minus them, and the flag is set only if bytes remain (or it was already set) |
| Reassembly.Append | BLEConsole/TripTracker.cs:254-259 | the buffer grows by the whole chunk, the count drops by its length, and the flag clears exactly at zero or below |
| Reassembly.AppendAllConcat | BLEConsole/TripTracker.cs:251-259 | appending chunks one by one equals appending their concatenation |
| Reassembly.FrameText | BLEConsole/TripTracker.cs:223-235 | a framed record reads as `key=<hex length>\n` followed by its payload |
| Reassembly.FieldOfHeader | BLEConsole/TripTracker.cs:226-227 | the header field of a framed record is its hex length |
| Reassembly.NewlineOfHeader | BLEConsole/TripTracker.cs:231-235 | the first newline of a framed record ends its header |
| Reassembly.FrameDeclaredLength | BLEConsole/TripTracker.cs:228 | the declared length read from a frame is the payload length, wrapped to int |
| Reassembly.FrameInitialBytes | BLEConsole/TripTracker.cs:231-235 | the initial bytes of a frame are exactly its payload |
| Reassembly.PairFields | BLEConsole/TripTracker.cs:190-197 | a `key=x,y` answer is recognised by its key and splits into the two printed numbers |
| Reassembly.SingleField | BLEConsole/TripTracker.cs:190-197 | a `key=x` answer splits into one printed number |
| Commands.NumberedText | BLEConsole/TripTracker.cs:127-146 | a numbered command's text parses back to that prefix and number |
| Commands.ParseRender | BLEConsole/TripTracker.cs:115-146 | every well-formed command's text parses back to the command |
| Commands.BareText | BLEConsole/TripTracker.cs:115-121 | the unnumbered commands `LE?`, `VH?`, `DD?`, `SC?` parse back to themselves |
| Commands.RenderInjective | BLEConsole/TripTracker.cs:115-146 | two well-formed commands with the same text are the same command |
| Commands.Sent | BLEConsole/TripTracker.cs:127-146 | the writes attempted: all of them, or up to and including the first that fails |
| Commands.RequestTripData | BLEConsole/TripTracker.cs:107-159 | sends `VH?`, `DD?`, `LD?0..NumLegs-1`, `ED?0..NumEvents-1` in order, stopping after the first failed write |
| Commands.RequestEventData | BLEConsole/TripTrackerSync.cs:95-121 | sends `SD?id` for each id from StartId up to EndId-1 in order, stopping after the first failed write |
| Commands.CursorAdvance | BLEConsole/TripTrackerSync.cs:132-159 | `SS=EndId` is sent exactly when the save succeeded, and nothing else is sent |
| PendingWork.Pass | BLEConsole/TripTracker.cs:81-105 | one pass exits exactly on Done, requests exactly on RequestData, exports exactly on ProcessResults; a request clears the flag, an export sets Done |
| PendingWork.Unattended | BLEConsole/TripTracker.cs:81-105 | with no notifications, the loop requests at most once and exports at most once; it exits only from ProcessResults or Done; ProcessResults gives exactly export-then-exit |
| Vehicle.DecodeOptions | BLEConsole/VehicleInfo.cs:42-47 | a tow name is read exactly when the tow byte is 1, generator hours exactly when the generator byte is 1 |
| Vehicle.Decode | BLEConsole/VehicleInfo.cs:27-49 | a decoded vehicle is well formed, its flags follow their bytes, and a buffer shorter than the fixed part fails |
| Vehicle.OptionsRoundTrip | BLEConsole/VehicleInfo.cs:42-47 | the optional tail decodes back to what was written |
| Vehicle.RoundTrip | BLEConsole/VehicleInfo.cs:27-49 | every well-formed vehicle decodes from its bytes, consuming exactly its length |
| Trip.DecodeHead | BLEConsole/TripInfo.cs:46-52 | the type is one ASCII char, and each GPS flag is set exactly when its char is non-zero |
| Trip.DecodeStamps | BLEConsole/TripInfo.cs:54-59 | the id and times are unsigned and the offsets signed 32-bit values |
| Trip.DecodeTail | BLEConsole/TripInfo.cs:74-76 | IsTowing is set exactly when its byte is 1 |
| Trip.Decode | BLEConsole/TripInfo.cs:41-78 | fails on a short buffer, otherwise yields a well-formed trip with flags from their bytes and consumes exactly its fixed length |
| Trip.StartLocalSeconds | BLEConsole/TripInfo.cs:16-17 | StartLocalTime in seconds: keeps GMT's minutes and seconds, equals GMT exactly at offset 0, and is ahead of GMT exactly for a positive offset |
| Trip.EndLocalSeconds | BLEConsole/TripInfo.cs:18-19 | EndLocalTime in seconds, with the same relation to the end GMT time and offset |
| Trip.HeadRoundTrip | BLEConsole/TripInfo.cs:46-52 | the head decodes back to what was written |
| Trip.StampsRoundTrip | BLEConsole/TripInfo.cs:54-59 | the stamps decode back to what was written |
| Trip.TailRoundTrip | BLEConsole/TripInfo.cs:74-76 | the tail decodes back to what was written |
| Trip.RoundTrip | BLEConsole/TripInfo.cs:41-78 | every well-formed trip decodes from its bytes, consuming exactly its length |
| EventRecord.KindOf | BLEConsole/EventInfo.cs:12-18 | tags 1, 2, 3 name fuel, propane and oil; every other tag names no kind |
| EventRecord.KindOfTypeCode | BLEConsole/EventInfo.cs:12-18 | each kind's tag names that kind |
| EventRecord.TypeCode | BLEConsole/EventInfo.cs:12-18 | each decoder class has a tag from 1 to 3; Unknown (0) belongs to none |
| EventRecord.LocalSeconds | BLEConsole/EventInfo.cs:28-29 | LocalTime in seconds: keeps GMT's minutes and seconds, equals GMT exactly at offset 0, and is ahead of GMT exactly for a positive offset |
| EventRecord.DecodeHead | BLEConsole/EventInfo.cs:56-61 | the type is the first byte, the GPS flag follows its char, and the name is 10 ASCII chars |
| EventRecord.DecodeStamps | BLEConsole/EventInfo.cs:62-64 | the id and time are unsigned and the offset signed 32-bit values |
| EventRecord.Decode | BLEConsole/EventInfo.cs:51-74 | fails on a buffer shorter than the kind's length, otherwise yields a well-formed event of that kind whose type is the first byte |
| EventRecord.HeadRoundTrip | BLEConsole/EventInfo.cs:56-61 | the head decodes back to what was written |
| EventRecord.StampsRoundTrip | BLEConsole/EventInfo.cs:62-64 | the stamps decode back to what was written |
| EventRecord.RoundTrip | BLEConsole/EventInfo.cs:51-150 | every well-formed event of each of the three kinds decodes from its bytes, consuming exactly its length |
| Event2Record.TypeCode | BLEConsole/Event2Info.cs:13-22 | each of the seven kinds has a tag from 1 to 7 |
| Event2Record.KindOf | BLEConsole/Event2Info.cs:13-22 | a tag names a kind exactly when it is between 1 and 7 |
| Event2Record.KindOfTypeCode | BLEConsole/Event2Info.cs:13-22 | each kind's tag names that kind |
| Event2Record.DecodeStamps | BLEConsole/Event2Info.cs:63-68 | the interface version, id, type, times and offset, with the type read from byte 8 |
| Event2Record.DecodeVehicle | BLEConsole/Event2Info.cs:69-72 | a 10-char ASCII name and three readings |
| Event2Record.DecodeDescription | BLEConsole/Event2Info.cs:74-78 | no description exactly when the length is 0; a length of 2^31 or more fails as a negative count |
| Event2Record.DecodeTow | BLEConsole/Event2Info.cs:80-85 | a tow name is read exactly when its flag char is non-zero |
| Event2Record.DecodePosition | BLEConsole/Event2Info.cs:87-93 | a position is read exactly when its flag char is non-zero |
| Event2Record.DecodeGenerator | BLEConsole/Event2Info.cs:95-98 | generator hours are read exactly when their flag char is non-zero |
| Event2Record.DecodeOptions | BLEConsole/Event2Info.cs:80-98 | the three optional sections, each present exactly when its flag is set |
| Event2Record.DecodeDetail | BLEConsole/Event2Info.cs:148-300 | each kind's trailing fields, of the kind's fixed length |
| Event2Record.DecodeFixed | BLEConsole/Event2Info.cs:63-72 | the fixed prefix up to the description |
| Event2Record.DecodeVariable | BLEConsole/Event2Info.cs:74-98 | the description and options, consuming exactly their length |
| Event2Record.Decode | BLEConsole/Event2Info.cs:104-300 | fails on a buffer shorter than the kind's minimum, otherwise yields a well-formed event of that kind whose type is byte 8 |
| Event2Record.StampsRoundTrip | BLEConsole/Event2Info.cs:63-68 | the stamps decode back to what was written |
| Event2Record.FixedRoundTrip | BLEConsole/Event2Info.cs:63-72 | the fixed prefix decodes back to what was written |
| Event2Record.DescriptionRoundTrip | BLEConsole/Event2Info.cs:74-78 | the description decodes back to what was written |
| Event2Record.OptionsRoundTrip | BLEConsole/Event2Info.cs:80-98 | the optional sections decode back to what was written |
| Event2Record.TowRoundTrip | BLEConsole/Event2Info.cs:80-85 | the tow section decodes back to what was written |
| Event2Record.PositionRoundTrip | BLEConsole/Event2Info.cs:87-93 | the position section decodes back to what was written |
| Event2Record.GeneratorRoundTrip | BLEConsole/Event2Info.cs:95-98 | the generator section decodes back to what was written |
| Event2Record.VariableRoundTrip | BLEConsole/Event2Info.cs:74-98 | the variable part decodes back to what was written |
| Event2Record.DetailRoundTrip | BLEConsole/Event2Info.cs:148-300 | each kind's trailing fields decode back to what was written |
| Event2Record.RoundTrip | BLEConsole/Event2Info.cs:104-300 | every well-formed event of each of the seven kinds decodes from its bytes, consuming exactly its length |
| DayFetch.CheckComplete | BLEConsole/TripTracker.cs:284-287 | changes only the flag: ProcessResults exactly when at least NumLegs+1 trips and NumEvents events are in, otherwise the state unchanged |
| DayFetch.FileVehicle | BLEConsole/TripTracker.cs:261-266 | throws exactly when the vehicle does not decode; otherwise stores it and changes nothing else |
| DayFetch.FileTrip | BLEConsole/TripTracker.cs:267-288 | throws with nothing changed when the trip does not decode; otherwise appends it and runs the completion check |
| DayFetch.FileEvent | BLEConsole/TripTracker.cs:289-328 | an empty buffer throws; an unknown tag files nothing but runs the completion check; otherwise at most the event of the tag's kind is filed |
| DayFetch.Complete | BLEConsole/TripTracker.cs:257-329 | a throw changes nothing; with no kind nothing happens; a vehicle decode never runs the completion check; only a vehicle decode changes the vehicle |
| DayFetch.CompleteFrame | BLEConsole/TripTracker.cs:257-329 | a decode changes only the records and the flag |
| DayFetch.CompleteKinds | BLEConsole/TripTracker.cs:261-328 | a decode files only into the list of the response's own kind |
| DayFetch.CompleteGrows | BLEConsole/TripTracker.cs:267-324 | a decode appends at most one trip and at most one event |
| DayFetch.CompleteWork | BLEConsole/TripTracker.cs:261-328 | a decode raises the flag only when all records are in, and never after a vehicle |
| DayFetch.Continue | BLEConsole/TripTracker.cs:249-335 | appends the whole notification, decodes once nothing remains, and keeps everything else |
| DayFetch.ReadCounts | BLEConsole/TripTracker.cs:190-203 | changes only the counts and the flag; the flag becomes RequestData only on success |
| DayFetch.StartResponse | BLEConsole/TripTracker.cs:204-248 | sets the kind; on success the buffer is exactly the bytes after the newline; on a throw it is unchanged |
| DayFetch.Classify | BLEConsole/TripTracker.cs:190-216 | `LegEventCounts=`, `VH=`, `TP=`, `ED=` each select their own branch whatever the test order, and a chunk is text with none of the four prefixes |
| DayFetch.Handle | BLEConsole/TripTracker.cs:183-337 | keeps the registers valid, appends at most one record per list, sets RequestData only on a counts answer and ProcessResults only once all records are in |
| DayFetch.ChunkAppends | BLEConsole/TripTracker.cs:249-337 | a plain notification is appended while a response is active and ignored otherwise |
| DayFetch.CountsFields | BLEConsole/TripTracker.cs:190-197 | a counts answer is recognised and its two numbers read back as sent |
| DayFetch.CountsMessage | BLEConsole/TripTracker.cs:190-203 | a counts answer stores both counts and asks for the records, and is also appended to an active response |
| DayFetch.CountsWithoutEvents | BLEConsole/TripTracker.cs:195-197 | a counts answer missing its second number stores NumLegs and then throws |
| DayFetch.HeaderStartsResponse | BLEConsole/TripTracker.cs:204-248 | a header sets the kind and restarts the buffer with the bytes after its newline, whatever was being assembled |
| DayFetch.WholeResponseInHeader | BLEConsole/TripTracker.cs:236-249 | a record that fits in its header is buffered but never decoded, and the next plain notification is ignored |
| DayFetch.LastChunk | BLEConsole/TripTracker.cs:254-263 | the chunk that reaches the declared length triggers the decode |
| DayFetch.InnerChunk | BLEConsole/TripTracker.cs:254-257 | a chunk short of the length is only appended |
| DayFetch.ChunksComplete | BLEConsole/TripTracker.cs:249-263 | a run of chunks is appended verbatim and decoded exactly once, after the last |
| DayFetch.SplitIndependent | BLEConsole/TripTracker.cs:249-263 | where the chunk boundaries fall does not change the outcome |
| DayFetch.HeaderThenChunks | BLEConsole/TripTracker.cs:204-248 | after a header, the chunks continue from the registers the header set |
| DayFetch.ChunksAfterHeader | BLEConsole/TripTracker.cs:236-263 | the chunks after a header lead to the decode of exactly the payload |
| DayFetch.ResponseArrives | BLEConsole/TripTracker.cs:204-263 | a header plus chunks decodes exactly the concatenated payload |
| DayFetch.VehicleArrives | BLEConsole/TripTracker.cs:261-266 | a vehicle sent in pieces is stored as sent, with no completion check |
| DayFetch.TripArrives | BLEConsole/TripTracker.cs:267-288 | a trip sent in pieces is appended as sent, then the completion check runs |
| DayFetch.EventArrives | BLEConsole/TripTracker.cs:289-323 | an event sent in pieces is dispatched on its own tag and appended as sent, then the completion check runs |
| DayFetch.Step | BLEConsole/TripTracker.cs:81-105 | writes happen only on a pass with RequestData and are the day's requests; an export happens only on a pass with ProcessResults, is a snapshot of the lists, and sets Done; the loop stops only on Done |
| DayFetch.Start | BLEConsole/TripTracker.cs:38-79 | Initialize empties both lists and clears the flag, keeping the other statics; the loop runs exactly when the link and the `LE?` write succeed; `LE?` is written unless the link failed; nothing is exported |
| DayFetch.Run | BLEConsole/TripTracker.cs:81-105 | over any run the command and export logs only grow, and after the loop ends nothing is written or exported |
| DayFetch.StepConsistent | BLEConsole/TripTracker.cs:81-105 | one step keeps exports as snapshots of the lists and never takes back a write or an export |
| DayFetch.RunConsistent | BLEConsole/TripTracker.cs:81-105 | the same over any interleaving of notifications and passes |
| DayFetch.EndedStaysEnded | BLEConsole/TripTracker.cs:83 | once the loop has ended nothing more is written or exported |
| DayFetch.FetchBegins | BLEConsole/TripTracker.cs:59-71 | after `LE?` is answered, the next pass writes the day's requests and clears the flag |
| IncrementalSync.CheckComplete | BLEConsole/TripTrackerSync.cs:295-298 | changes only the flag: ProcessResults exactly when at least EndId-StartId events are in, otherwise the state unchanged |
| IncrementalSync.CompleteOutcome | BLEConsole/TripTrackerSync.cs:241-299 | a throw changes nothing; a buffer too short for byte 8 throws; an unknown tag files nothing but runs the completion check |
| IncrementalSync.Complete | BLEConsole/TripTrackerSync.cs:238-299 | a throw changes nothing; a buffer too short for byte 8 throws; on return the completion check has run on the filed list, which grew by at most one event |
| IncrementalSync.CompleteFiles | BLEConsole/TripTrackerSync.cs:244-291 | what is filed is the event of the tag's kind decoded from the buffer |
| IncrementalSync.Continue | BLEConsole/TripTrackerSync.cs:229-305 | appends the whole notification, decodes once nothing remains, and keeps everything else |
| IncrementalSync.ReadRange | BLEConsole/TripTrackerSync.cs:174-196 | on success asks for the events exactly when the range is non-empty and ends the loop exactly when it is empty; a throw leaves EndId and the flag |
| IncrementalSync.StartResponse | BLEConsole/TripTrackerSync.cs:197-228 | on success the buffer is exactly the bytes after the newline; a throw changes nothing |
| IncrementalSync.Handle | BLEConsole/TripTrackerSync.cs:167-307 | keeps the registers valid, appends at most one event, and changes the ids and flag only on a range answer or once all events are in |
| IncrementalSync.Classify | BLEConsole/TripTrackerSync.cs:174-197 | `SyncRange=` and `SyncData=` each select their own branch, and a chunk is text with neither prefix |
| IncrementalSync.ChunkAppends | BLEConsole/TripTrackerSync.cs:229-307 | a plain notification is appended while a response is active and ignored otherwise |
| IncrementalSync.RangeMessage | BLEConsole/TripTrackerSync.cs:174-196 | a range answer stores both ids and sets RequestData or Done by whether it is empty |
| IncrementalSync.RangeWithoutEnd | BLEConsole/TripTrackerSync.cs:179-183 | a range answer missing its end stores StartId and then throws |
| IncrementalSync.HeaderStartsResponse | BLEConsole/TripTrackerSync.cs:197-228 | a header restarts the buffer with the bytes after its newline, whatever was being assembled |
| IncrementalSync.LastChunk | BLEConsole/TripTrackerSync.cs:234-242 | the chunk that reaches the declared length triggers the decode |
| IncrementalSync.InnerChunk | BLEConsole/TripTrackerSync.cs:234-237 | a chunk short of the length is only appended |
| IncrementalSync.ChunksComplete | BLEConsole/TripTrackerSync.cs:229-299 | a run of chunks is appended verbatim and decoded exactly once, after the last |
| IncrementalSync.HeaderThenChunks | BLEConsole/TripTrackerSync.cs:203-228 | after a header, the chunks continue from the registers the header set |
| IncrementalSync.ChunksAfterHeader | BLEConsole/TripTrackerSync.cs:211-242 | the chunks after a header lead to the decode of exactly the payload |
| IncrementalSync.ResponseArrives | BLEConsole/TripTrackerSync.cs:197-299 | a header plus chunks decodes exactly the concatenated payload |
| IncrementalSync.CompleteEvent | BLEConsole/TripTrackerSync.cs:241-298 | an encoded event is dispatched on byte 8, filed under its own kind, and the completion check follows |
| IncrementalSync.EventArrives | BLEConsole/TripTrackerSync.cs:197-298 | an event sent in pieces is appended as sent and the completion check follows |
| IncrementalSync.ReceivedStaysReceived | BLEConsole/TripTrackerSync.cs:295-298 | once the range is covered, more events keep it covered |
| IncrementalSync.Step | BLEConsole/TripTrackerSync.cs:69-93 | an export happens only on a pass with ProcessResults and writes `SS=` only after a successful save; other writes are the range's requests; the loop stops only on Done |
| IncrementalSync.Start | BLEConsole/TripTrackerSync.cs:28-66 | Initialize clears only the flag, keeping EventInfoList; the loop runs exactly when the link and the `SC?` write succeed; `SC?` is written unless the link failed; nothing is exported |
| IncrementalSync.Run | BLEConsole/TripTrackerSync.cs:69-93 | over any run the command and export logs only grow, and after the loop ends nothing is written or exported |
| IncrementalSync.RequestsDoNotAdvance | BLEConsole/TripTrackerSync.cs:103-110 | the event requests never move the device's cursor |
| IncrementalSync.StartCursor | BLEConsole/TripTrackerSync.cs:28-66 | Initialize starts with no cursor advance and no save |
| IncrementalSync.StepCursor | BLEConsole/TripTrackerSync.cs:123-160 | each step keeps the number of `SS=` writes equal to the number of successful saves |
| IncrementalSync.RunCursor | BLEConsole/TripTrackerSync.cs:69-93 | the same over any interleaving of notifications and passes |
| IncrementalSync.SessionCursor | BLEConsole/TripTrackerSync.cs:132-159 | in every session the cursor advances exactly as many times as a save succeeded |
| IncrementalSync.EndedStaysEnded | BLEConsole/TripTrackerSync.cs:71 | once the loop has ended nothing more is written or exported |
| IncrementalSync.SyncBegins | BLEConsole/TripTrackerSync.cs:48-57 | after `SC?` is answered, the next pass requests each id of a non-empty range in order, or ends the loop on an empty one |
| TripReport.TypeLetterReadsBack | BLEConsole/ExcelWriter.cs:121-138 | the four row types get four distinct one-letter codes, and each letter reads back as its type |
| TripReport.TypeLetter | BLEConsole/ExcelWriter.cs:121-138 | each row type's Type cell is one letter that reads back as that type |
| TripReport.RowPlan | BLEConsole/ExcelWriter.cs:51-118 | the table is written exactly when there are trips and a vehicle, and then ends with the DayEnd row of the day summary; an abort leaves an unfinished row exactly when there are trips |
| TripReport.DrainTail | BLEConsole/ExcelWriter.cs:96-97 | the final loop writes every event not yet written, in order |
| TripReport.PassMerge | BLEConsole/ExcelWriter.cs:80-97 | the two loops write exactly the structured row plan |
| TripReport.AppendToTripDetailTable | BLEConsole/ExcelWriter.cs:51-118 | the rows written, whether the writer stops on a missing vehicle, and the unfinished row it then leaves, match the row plan |
| TripReport.LegSkeleton | BLEConsole/ExcelWriter.cs:87-92 | every later trip gives a LegStart row then a LegEnd row |
| TripReport.TailRowsContents | BLEConsole/ExcelWriter.cs:96-97 | the tail holds exactly the remaining events and no trip rows |
| TripReport.MergeContents | BLEConsole/ExcelWriter.cs:80-97 | the merged rows hold every event once in input order, and the trip rows are the day's skeleton |
| TripReport.MergeOrdered | BLEConsole/ExcelWriter.cs:83-85 | every event written just before a trip's start row started before that trip |
| TripReport.MergePlaced | BLEConsole/ExcelWriter.cs:80-97 | every event row is followed by a start row or by nothing but event rows: at most one event before each trip, none between a trip's rows, the rest after the last trip |
| TripReport.MergeGreedy | BLEConsole/ExcelWriter.cs:83-85 | a start row with no event just before it has no earlier event waiting: the next event row after it is not earlier than the trip's start |
| TripReport.LateEventNotGreedy | BLEConsole/ExcelWriter.cs:83-85 | a day whose only trip is followed by an earlier event is not greedy, so it is not how the loop places that event |
| TripReport.DaySkeleton | BLEConsole/ExcelWriter.cs:80-92 | the first trip gives DayStart, each later trip LegStart then LegEnd, with the trips in order |
| TripReport.PlanWritten | BLEConsole/ExcelWriter.cs:80-99 | with a vehicle and trips: every event once, every trip row in order, a final DayEnd from the first trip, 2·trips + events rows, ordered as above; before the last row every event is placed as MergePlaced says, and no trip is written while an earlier event waits |
| TripReport.PlanAborted | BLEConsole/ExcelWriter.cs:80-118 | with no trips or no vehicle no trip row is filled and DayEnd is never written; with no trips every event is still written; with no vehicle only the event before the first trip is written, followed by that trip's unfinished row |
| TripReport.TripCellsOf | BLEConsole/ExcelWriter.cs:111-210 | the vehicle column, the tow vehicle only when able to tow and towing, generator hours only with a generator, fuel used only on end rows, towed distance only on end rows with a tow vehicle, travel time only on DayEnd; the local-time cell has the GMT cell's minutes and seconds and is ahead of it exactly for a positive offset cell |
| TripReport.TripRowSides | BLEConsole/ExcelWriter.cs:140-206 | start rows show the trip's start readings and StartLocalTime, end rows its end readings and EndLocalTime; Leg rows differ from Day rows only in the letter and travel time |
| TripReport.CashCodeAsWritten | BLEConsole/ExcelWriter.cs:236-244 | the fuel code as written: "C" only for a name equal to "F09" |
| TripReport.CashCodeAsWrittenNeverCard | BLEConsole/ExcelWriter.cs:236-244 | no decoded event, whose name is always 10 chars, ever gets "C" |
| TripReport.CashCodeCounterexample | BLEConsole/ExcelWriter.cs:237 | the padded car name "F09" plus seven NULs gets "G" as written but "C" when trimmed |
| TripReport.TrimPadding | BLEConsole/ExcelWriter.cs:237 | the name with trailing NUL and space padding removed, keeping everything up to the last real char |
| TripReport.CashCode | BLEConsole/ExcelWriter.cs:233-271 | the corrected cash code, comparing the trimmed name |
| TripReport.CashCodeCases | BLEConsole/ExcelWriter.cs:233-271 | C exactly for car fuel, G for other fuel, P for propane, R for an oil change, nothing for any other tag |
| TripReport.EventCellsOf | BLEConsole/ExcelWriter.cs:212-273 | an event row shows the record's own readings; amounts only when the record's class matches its tag; "Oil" only for an oil change; the Cash cell is the corrected code (see Findings); the local-time cell has the GMT cell's minutes and seconds and is ahead of it exactly for a positive offset cell |
| TripReport.EventRowShowsRecord | BLEConsole/ExcelWriter.cs:217-271 | an event row's GMT time, LocalTime, place and readings come from the record, and its amounts are the record's extras exactly when the tag matches the class |

## Left out

- Bluetooth transport: writes are a parameter `failAt` naming the first write that fails. GATT discovery, pairing and the subscription are not modelled.
- Text decoding: `CryptographicBuffer` and `BinaryReader` decode UTF-8. The model handles ASCII only, and any other byte is a decode failure.
- `BinaryReader.ReadChars` with too few bytes returns a short array. The model fails at that call. Every such call in the records is followed by a read that throws, so the outcome is the same.
- Concurrency and `Thread.Sleep`: a session is an interleaving of handler calls and loop passes. There is no timeout, as in the code.
- `Debug` output: it is off in the code. With it on, the header branches would index `parts2[1]` and could throw; that path is not modelled.
- `Print` and the console output.
- `DateTime` and `TimeSpan` values: times stay as seconds and offsets.
- Excel automation: the workbook, sheet protection, formatting, hyperlinks, the `TripDetailTable` null check and `Save`.
- Computed floating-point cells: EngineHrsUsed, MPG, TimePerLeg, DistPerLeg, AvgMPH, ElapsedTime, TotalDist, and the TimeTraveling day fraction. Doubles are kept as their 8 bytes and never computed with.
- `AppendToTripDetailTable(List<Event2Info>)`: its body is not part of this model. The sync session takes its success as the `saved` input of each pass.
- The event row's GenHrs cell: it reads `e.GenHrs`, which the `EventInfo` class does not declare.
- The TripId column: the row-plan functions take it as a parameter.
- TripReport.AppendToTripDetailTable: a null vehicle is modelled as `Aborted`, the point where the code throws on `vehicle.Name`. The rows written before it are kept. The row `ListRows.Add()` had already added is recorded only as a flag, because its formatting and TripId cell are Excel automation.
- TripReport.EventCellsOf: the Cash cell uses the corrected `CashCode`, not the code's `CashCodeAsWritten`. For a fuel purchase by the car `F09` the model writes "C" where the code writes "G" (see Findings).
- DayFetch.FileTrip: `TripInfo.Print` runs between the append and the completion check. It formats the local times with `AddHours(TZOffset)`, which throws for an offset that takes the date outside `DateTime`'s range. The code then skips the completion check. The model always runs the check, because `DateTime` is not modelled.
- DayFetch.FileEvent: the same holds for `EventInfo.Print`, which formats `LocalTime` between the append and the completion check.
- TripReport.TripCellsOf: the same `AddHours` conversion throws in the Excel writer for an out-of-range offset. The model computes the LocalDate and LocalTime cells as one unbounded number of seconds, with no date formatting. The same applies to TripReport.EventCellsOf.
- `StartsWith` is taken as ordinal.

## Findings

| source | as written | input that shows it | evidently intended | confidence | as-written member | corrected member |
|---|---|---|---|---|---|---|
| BLEConsole/ExcelWriter.cs:237 | `e.VehicleName == "F09"` compares the 10-char name read by `ReadChars(10)` with a 3-char literal, so the car-fuel code "C" is never chosen | a fuel purchase (tag 1) whose name bytes are `F09` followed by seven NULs | compare the name with its padding trimmed | high that the branch is dead, medium on the intent; not executed | TripReport.CashCodeAsWritten, TripReport.CashCodeCounterexample | TripReport.CashCode, TripReport.CashCodeCases |
