# The ASM responder, verified

This project models the responder side of the Auditorium Security Messages of
ISO 26430-6:2009 as one stack: wire bytes, KLV frame, request, handler, key store, key file,
reply, frame, wire bytes. C++ exceptions are a `Result`; operations that may throw after they
have changed the store return an `Outcome`, which holds the store they leave behind as well.

| file | contents |
|---|---|
| `Prelude.dfy`, `BigEndian.dfy` | machine integers, byte order: positional value, shift-and-mask code on machine words |
| `Klv.dfy`, `Codec.dfy`, `Batch.dfy`, `U32Batch.dfy`, `KeyRecords.dfy` | frames, label table, requests, responses, batches |
| `KeyList.dfy` | capacity pre-check, load, purge and lookup on record lists |
| `TextNumbers.dfy`, `LinePattern.dfy`, `KeyFile.dfy` | decimal and hexadecimal text, the line pattern, the key file |
| `KeyStores.dfy` | the store in memory and the file-backed store as classes |
| `EventLog.dfy` | window listing, lookup by id, XML text |
| `Service.dfy`, `Server.dfy`, `Answers.dfy` | dispatch, one exchange with its catch block, what each answer means |
| `Wire.dfy` | frames and payloads byte by byte, as the standard lays them out |
| `History.dfy`, `Runs.dfy` | whole runs: any frames, restarts and failing writes |

Each loop and each object of the source is a method or class here, proved equal to a
specification function; the theorems are about those functions. What a function means is
stated without it wherever it could be wrong together with its inverse: bytes and labels as
literals (`Wire`), digits by table, lists by position, capacity as 16. The outside world is a
parameter: `now` is the clock, `canOpen` says whether the key file can be opened during the
exchange, `Env` holds the event log and the playback status. `unsigned long` is taken to be
64 bits wide.

## What does not hold of the code, and exactly when it does

- A reply that is not `successful` should leave the key store unchanged. `persist` throws
  after the records were changed, so a load or purge whose write fails is answered BadRequest
  and has still taken effect in memory. `FailureAtomicIff`: it does leave the store unchanged
  if and only if not all of these hold: the command gets as far as writing (`Persists`), the
  file cannot be opened, and there is something to write, which is a batch record that is not
  stored as such, or a key to purge (`LosesPersist`). `ExchangeAsToldIff` says under the same
  condition that the store changes as the two frames tell. `FailureNotAtomic` is the failing
  case; `FileIsLastWrite` says what a restart then brings back.
- The capacity pre-check counts a repeated new id every time. It never lets too much in
  (`PreCheckSound`). `PreCheckExactIff` says for which batches it is exact on every store,
  `PreCheckExactHere` when it is for one store and batch.
- The constructor of the file-backed store checks neither capacity nor distinct ids
  (`ForeignFileOpensToAnything`). `OpenedFileStaysSoundIff`: a store opened on an existing
  file keeps at most 16 distinct ids over every run if and only if the records read from the
  file are that already. Ids and expiry times over 32 bits are read modulo 2^32
  (`ForeignLine`); `FileRefusedIff` says which files are refused.
- Event ids need not be distinct. `NoRepeatsIff` and `LookupFaithfulIff` give the conditions
  on the log under which listings have one entry per id and lookups return the right text.
- `docs/iso26430-6-asm-implementation.md` says that every illegal payload length is answered
  with BadRequest. `IllegalLengthAnswered`: it is, if and only if the command is not GetTime,
  QuerySPB, LEKeyQueryAll or LEKeyPurgeAll, the commands that carry no payload. GetTime
  ignores its payload (`TimeAnswered`); the other three are answered with their own response
  and code `invalid` (`StatusAnswered`, `QueryAllAnswered`, `PurgeAllAnswered`). The store is
  untouched in every case. The model follows the code.

## Model

| member | source | states |
|---|---|---|
| BigEndian.DecodeBeU32 | src/asm/codec.cpp:70-79 | shifting and or-ing four bytes at any offset gives their base-256 value; a short buffer throws |
| BigEndian.DecodeBeU64 | src/asm/codec.cpp:81-91 | the accumulating loop over eight bytes gives their base-256 value without overflow |
| BigEndian.AppendBeU32 | src/asm/codec.cpp:93-98 | the pushed bytes are the four base-256 digits, after the untouched prefix |
| BigEndian.AppendBeU64 | src/asm/codec.cpp:100-104 | the loop over shifts 56 to 0 pushes the eight base-256 digits, after the untouched prefix |
| BigEndian.FromTo | src/asm/codec.cpp:93-104 | the value of the written digits is the number written, if it fits the width |
| BigEndian.ToFrom | src/asm/codec.cpp:70-91 | the digits of a value read are the bytes it was read from |
| BigEndian.ReadBackU32 | src/asm/codec.cpp:70-98 | a 32-bit number written between any two buffers is read back there |
| BigEndian.ReadBackU64 | src/asm/codec.cpp:81-104 | the same for 64 bits |
| Klv.Encode | src/klv/klv.cpp:31-43 | the buffer built is label, length and value, or the mismatch or length error |
| Klv.Decode | src/klv/klv.cpp:45-62 | the packet filled in is the decoding function's, error cases included |
| Klv.DecodesExactlyWellFormed | src/klv/klv.cpp:17-62 | accepted are exactly frames of 20 bytes and more with 0x83 at byte 16 and the right announced length |
| Klv.DecodeEncoded | src/klv/klv.cpp:5-62 | decoding undoes encoding for every packet that can be encoded |
| Klv.EncodeDecoded | src/klv/klv.cpp:5-62 | every accepted frame is the encoding of the packet it was decoded to |
| Klv.PrefixFree | src/klv/klv.cpp:45-62 | two accepted frames at the head of one byte stream are equal, so no proper prefix of a frame is a frame |
| Klv.UniquelyDecodable | src/klv/klv.cpp:31-62 | a concatenation of encoded packets determines the list of packets |
| Codec.LookupEntry | src/asm/codec.cpp:44-51 | the scan returns the first entry for a command and direction, or throws |
| Codec.ScanUl | src/asm/codec.cpp:214-224 | the scan returns the descriptor of the first entry with the label, or throws |
| Codec.TableInjective | src/asm/codec.cpp:22-42 | no two table entries share a label or a descriptor |
| Codec.LabelsIdentifyCommands | src/asm/codec.cpp:44-51 | every command and direction but the BadRequest request has a label, and the label leads back to it |
| Codec.CommandsIdentifyLabels | src/asm/codec.cpp:214-228 | the label of a described command is the label that was described |
| Codec.EncodeRequest | src/asm/codec.cpp:148-155 | the packet pushed together is the request's packet |
| Codec.DecodeRequest | src/asm/codec.cpp:157-171 | the request filled in is the packet's request, with all three errors |
| Codec.EncodeResponse | src/asm/codec.cpp:173-186 | the packet pushed together is the response's packet; a missing id throws |
| Codec.DecodeResponse | src/asm/codec.cpp:188-212 | the response filled in is the packet's response, with all errors |
| Codec.RequestRoundTrip | src/asm/codec.cpp:148-171 | a request is framed unless it is BadRequest or over 2^24 - 5 bytes, and is read back unchanged |
| Codec.RequestReencodes | src/asm/codec.cpp:148-171 | an accepted request frame re-encodes to the same bytes |
| Codec.RequestAccepted | src/asm/codec.cpp:157-171 | acceptance read off the bytes: well-formed, 24 bytes or more, a request label; and where id and payload lie |
| Codec.ResponseRoundTrip | src/asm/codec.cpp:173-212 | when a response can be framed, how long the frame is, and that the client reads the same response, less the id of a BadRequest |
| Codec.ResponseReencodes | src/asm/codec.cpp:188-212 | an accepted response frame re-encodes to itself; an id is present exactly outside BadRequest |
| U32Batch.Encode | src/asm/le_key.cpp:57-65 | the loop writes header and ids in order |
| U32Batch.Decode | src/asm/le_key.cpp:67-86 | the loop reads as many ids as announced, with all three errors |
| U32Batch.DecodeEncoded | src/asm/event_log.cpp:103-132 | decoding an encoded id list is the identity exactly when the count fits 32 bits |
| U32Batch.EncodeDecoded | src/asm/le_key.cpp:57-86 | accepted are exactly the byte strings of 8 + 4 n bytes with header (n, 4), and each is the encoding of the list it was decoded to |
| KeyRecords.EncodeLoadRequest | src/asm/le_key.cpp:259-267 | the loop writes header and 32-byte records in order |
| KeyRecords.DecodeLoadRequest | src/asm/le_key.cpp:269-288 | the loop reads as many records as announced, with all three errors, never out of bounds |
| KeyRecords.RecordReadBack | src/asm/le_key.cpp:34-55 | a record written between any two buffers is read back field by field |
| KeyRecords.LoadRequestAccepted | src/asm/le_key.cpp:269-282 | accepted are exactly the byte strings of 8 + 32 n bytes with header (n, 32) |
| KeyRecords.LoadRequestRoundTrip | src/asm/le_key.cpp:259-288 | parsing a printed batch is the identity exactly when the count fits 32 bits |
| KeyRecords.LoadRequestReencodes | src/asm/le_key.cpp:259-288 | every accepted batch is the printed form of the records it was parsed to |
| KeyList.LoadedIdOrder | src/asm/le_key.cpp:124-133 | a load keeps the stored ids in place and appends the new ones |
| KeyList.AddedIsNew | src/asm/le_key.cpp:124-133 | the appended ids are exactly those of the batch that were not stored |
| KeyList.AddedInFirstOccurrenceOrder | src/asm/le_key.cpp:124-133 | appended ids stand in the order in which they first occur in the batch |
| KeyList.LoadedRecords | src/asm/le_key.cpp:124-133 | at each position stands the batch's last entry for its id, or the old record if there is none |
| KeyList.LoadKeepsOrder | src/asm/le_key.cpp:124-133 | the list after a load in full: which ids in which order, and which record at each position |
| KeyList.LoadUpdatesMap | src/asm/le_key.cpp:124-133 | as a map, a load is an update in which the batch's last entry wins |
| KeyList.LoadChangesNothingIff | src/asm/le_key.cpp:124-133 | a load leaves the list as it was if and only if every id of the batch is stored with the last record the batch has for it |
| KeyList.LoadKeepsDistinct | src/asm/le_key.cpp:124-133 | distinct ids stay distinct |
| KeyList.PurgeUpdatesMap | src/asm/le_key.cpp:152-158 | as a map, a purge removes the id and touches no other |
| KeyList.PurgeRemoves | src/asm/le_key.cpp:152-158 | the list shrinks exactly when the id was stored, and is otherwise unchanged |
| KeyList.PurgeKeepsOthers | src/asm/le_key.cpp:152-158 | what is left are exactly the records with other ids, distinct if they were |
| KeyList.PurgeKeepsOrder | src/asm/le_key.cpp:152-158 | what is left are the records at the positions with other ids, all of them, once and in increasing order |
| KeyList.OverflowIff | src/asm/le_key.cpp:88-99 | a batch is refused exactly when the stored keys and the batch entries for ids not stored are more than 16 together |
| KeyList.EmptyStoreTakes | src/asm/le_key.cpp:88-135 | an empty store refuses exactly the batches of more than 16 entries and takes a batch of distinct ids whole |
| KeyList.PreCheckSound | src/asm/le_key.cpp:88-99 | a load that passes the pre-check fits in 16 places, for every store and batch |
| KeyList.PreCheckExactIff | src/asm/le_key.cpp:88-99 | the pre-check is exact on every distinct-id store if and only if the batch repeats no id or alone names over 16 |
| KeyList.PreCheckExactHere | src/asm/le_key.cpp:88-99 | for one distinct-id store and one batch: the pre-check is exact unless the new ids fit and their entries, counted with repeats, do not |
| KeyStores.CheckOverflow | src/asm/le_key.cpp:88-99 | the counting loop computes the pre-check |
| KeyStores.InMemoryLeKeyStore.LoadKeys | src/asm/le_key.cpp:119-135 | the loop of find, overwrite and append is the ordered merge; over 16 nothing changes |
| KeyStores.InMemoryLeKeyStore.ContainsKey | src/asm/le_key.cpp:137-141 | true exactly when the store holds the id |
| KeyStores.InMemoryLeKeyStore.ListKeyIds | src/asm/le_key.cpp:143-150 | the ids in stored order |
| KeyStores.InMemoryLeKeyStore.PurgeKey | src/asm/le_key.cpp:152-158 | erases the id, keeps the others in order, and reports whether the list got shorter |
| KeyStores.InMemoryLeKeyStore.Clear | src/asm/le_key.cpp:160-162 | empties the store |
| KeyStores.OpenedIff | src/asm/le_key.cpp:164-192 | opening fails exactly when the file cannot be opened or is refused; a created store is empty; opening again gives the same store |
| KeyStores.JsonlLeKeyStore.Open | src/asm/le_key.cpp:164-192 | creates a missing file, or reads an existing one, with its errors |
| KeyStores.JsonlLeKeyStore.GetLine | src/asm/le_key.cpp:181-185 | the line delivered is the text up to the next newline or the end; the position moves past it; what is left parses as before |
| KeyStores.JsonlLeKeyStore.ReadLines | src/asm/le_key.cpp:179-191 | the reading loop computes the parse of the whole text, with the line number of the first error |
| KeyStores.JsonlLeKeyStore.Persist | src/asm/le_key.cpp:245-257 | the writing loop leaves exactly the printed records in the file, or throws and leaves it alone |
| KeyStores.JsonlLeKeyStore.LoadKeys | src/asm/le_key.cpp:194-211 | the ordered merge unless over 16, then the write; a failed write leaves the merged records |
| KeyStores.JsonlLeKeyStore.ContainsKey | src/asm/le_key.cpp:213-217 | true exactly when the store holds the id |
| KeyStores.JsonlLeKeyStore.ListKeyIds | src/asm/le_key.cpp:219-226 | the ids in stored order |
| KeyStores.JsonlLeKeyStore.PurgeKey | src/asm/le_key.cpp:228-238 | erases the id, keeps the others in order, and writes only if something was removed |
| KeyStores.JsonlLeKeyStore.Clear | src/asm/le_key.cpp:240-243 | empties the store and writes |
| TextNumbers.BytesToHex | src/asm/le_key.cpp:13-20 | two lower-case digits per byte, in order |
| TextNumbers.HexForm | src/asm/le_key.cpp:13-20 | the digits printed for each byte, high half first, by table |
| TextNumbers.KeyOfHex | src/asm/le_key.cpp:22-32 | the loop over digit pairs computes the 16 key bytes, which are the ones written, or the length error |
| TextNumbers.HexTable | src/asm/le_key.cpp:29 | the 22 digits and their values, both cases, by table |
| TextNumbers.KeyAsWritten | src/asm/le_key.cpp:22-32 | exactly 32 digits are a key, and printed again it is the text in lower case |
| TextNumbers.HexRoundTrip | src/asm/le_key.cpp:13-32 | reading printed key bytes gives them back |
| TextNumbers.NumberRoundTrip | src/asm/le_key.cpp:109-114 | reading a printed 64-bit number gives it back |
| TextNumbers.DecimalForm | src/asm/event_log.cpp:76 | a number is printed digit by digit by table, without leading zeros |
| TextNumbers.DigitTable | src/asm/event_log.cpp:76 | the ten digits and their values, by table |
| TextNumbers.PrintedAgain | src/asm/le_key.cpp:109-114 | every run of digits without leading zeros is the printed form of its value |
| LinePattern.ScanDecidesMatch | src/asm/le_key.cpp:102-107 | on a pattern whose repetitions cannot run into what follows, scanning without backtracking finds captures exactly when they match |
| LinePattern.MatchesIffWoven | src/asm/le_key.cpp:102-107 | a line matches any pattern with some captures if and only if they are of the right kind and the line is the pattern's chunks with white space between them |
| KeyFile.ParsedAlone | src/asm/le_key.cpp:179-191 | one accepted line gives its record, an empty one none |
| KeyFile.LineOneWay | src/asm/le_key.cpp:102-103 | the line pattern is of that kind |
| KeyFile.LineAccepted | src/asm/le_key.cpp:102-107 | a line yields some captures exactly when it fully matches the pattern with them |
| KeyFile.LineWritten | src/asm/le_key.cpp:102-103 | a line matches if and only if it is the 17 pieces of the JSON object in order, with any white space around them and none elsewhere |
| KeyFile.ForeignLine | src/asm/le_key.cpp:101-115 | a matching line is refused exactly for a number over 64 bits; key bytes and attribute are stored as written, id and expiry modulo 2^32, so as written exactly when below |
| KeyFile.FileRefusedIff | src/asm/le_key.cpp:179-191 | reading a file fails exactly when some line is neither empty nor accepted, and reports the number of the first such line and why |
| KeyFile.PrintedLineParses | src/asm/le_key.cpp:101-115 | a printed record parses to that record |
| KeyFile.PrintedPieces | src/asm/le_key.cpp:251-256 | a record is printed as those pieces with nothing between them, numbers in decimal, key in lower-case hexadecimal |
| KeyFile.PrintedInOrder | src/asm/le_key.cpp:251-256 | a file is the printed records in list order, a newline after each |
| KeyFile.FirstLine | src/asm/le_key.cpp:181 | a text up to its first newline is a line, and so is a last one without it |
| KeyFile.ParsedInOrder | src/asm/le_key.cpp:179-191 | two runs of lines are parsed one after the other, their records in that order, up to the first error |
| KeyFile.FileRoundTrip | src/asm/le_key.cpp:179-191 | parsing the file printed for any list of records gives back that list, in order |
| EventLog.ListEventIds | src/asm/event_log.cpp:164-172 | the loop collects the ids of the window |
| EventLog.WindowContents | src/asm/event_log.cpp:164-172 | a record is listed exactly when its time stamp lies in the window, ends included |
| EventLog.WindowInOrder | src/asm/event_log.cpp:164-172 | the listing of two logs in a row is the two listings in a row, records and ids |
| EventLog.WindowConserves | src/asm/event_log.cpp:164-172 | splitting a window at any second loses and repeats no id |
| EventLog.NoRepeatsIff | src/asm/event_log.cpp:164-172 | every listing has one entry per id if and only if the log repeats none |
| EventLog.EscapeXml | src/asm/event_log.cpp:45-71 | the loop computes the escaped text |
| EventLog.UnescapeEscape | src/asm/event_log.cpp:45-71 | unescaping recovers every text |
| EventLog.EscapedIsPlain | src/asm/event_log.cpp:45-71 | escaped text has no angle brackets or quotes |
| EventLog.EscapeInOrder | src/asm/event_log.cpp:45-71 | text is escaped piece by piece, in order |
| EventLog.EscapeTable | src/asm/event_log.cpp:49-67 | the five characters and what each becomes; any other stays |
| EventLog.RenderedDocument | src/asm/event_log.cpp:73-82 | the text is one LogRecord element holding EventID, Timestamp, Severity and Summary in this order |
| EventLog.RenderInjective | src/asm/event_log.cpp:73-82 | records with the same XML text agree in id, time text, severity and summary |
| EventLog.GetEventXml | src/asm/event_log.cpp:174-181 | the loop returns the rendering of the first record with the id |
| EventLog.XmlOfIsFirst | src/asm/event_log.cpp:174-181 | a text is found exactly for logged ids, and it is that of the first record with the id |
| EventLog.LookupFaithfulIff | src/asm/event_log.cpp:174-181 | every record is found by its id if and only if records that share an id share their text |
| EventLog.ListRequestRoundTrip | src/asm/event_log.cpp:223-238 | a printed window is parsed back |
| EventLog.TextRoundTrip | src/asm/event_log.cpp:265-275 | text put into a payload is read back |
| Service.AsmService.HandleRequest | src/asm/service.cpp:32-63 | dispatch leaves the store and returns the result or exception the handler functions give |
| Service.AsmService.EventListReply | src/asm/service.cpp:83-108 | the event list handler |
| Service.AsmService.EventIdReply | src/asm/service.cpp:110-136 | the event lookup handler |
| Service.AsmService.LoadReply | src/asm/service.cpp:165-179 | the load handler, store and exception included |
| Service.AsmService.QueryIdReply | src/asm/service.cpp:181-194 | the key query handler |
| Service.AsmService.QueryAllReply | src/asm/service.cpp:196-220 | the key listing handler |
| Service.AsmService.PurgeIdReply | src/asm/service.cpp:222-236 | the purge handler, store and exception included |
| Service.AsmService.PurgeAllReply | src/asm/service.cpp:238-260 | the purge-all handler, store and exception included |
| Server.TlsServer.TryRequest | src/transport/tls_server.cpp:131-146 | the try block: store, frame or exception, and trace |
| Server.TlsServer.ServeClient | src/transport/tls_server.cpp:130-153 | the exchange with its catch block |
| Server.Exchange | src/transport/tls_server.cpp:130-153 | every exchange is answered with a decodable frame; BadRequest, copying the request with code invalid, exactly when the request is refused; otherwise command and id are echoed; the trace shows command and id received and the code sent |
| Server.RefusedByRequest | src/asm/service.cpp:32-67 | the refusal condition on frame bytes is the one on the decoded request |
| Server.EveryReadIsAnswered | src/transport/tls_server.cpp:50-56 | anything one read can deliver is answered |
| Server.EveryRequestHandled | src/asm/service.cpp:32-63 | for every command: records left, when it throws, when its answer is too long, and that failure codes leave the store alone |
| Server.FailureAtomicIff | src/transport/tls_server.cpp:131-153 | an unsuccessful reply leaves store and file untouched if and only if the request does not reach a write that has something to write and finds the file unopenable |
| Server.ChangesKeysIff | src/asm/le_key.cpp:194-243 | a command that reaches the write changes the records if and only if a batch record is not stored as such, or there is a key to purge |
| Server.FailureNotAtomic | src/asm/le_key.cpp:240-250 | purging all keys with an unopenable file is answered BadRequest and empties the store |
| Server.KeyRepliesAreShort | src/asm/service.cpp:165-260 | with at most 16 keys, every answer to a key command fits in 97 bytes |
| Server.QueryAllReportsIds | src/asm/service.cpp:196-220 | the client decodes exactly the stored ids, however many, if they fit a frame, and is answered BadRequest if not |
| Answers.TimeAnswered | src/asm/service.cpp:69-81 | GetTime tells the clock whatever its payload |
| Answers.StatusAnswered | src/asm/service.cpp:138-163 | QuerySPB reports the bytes 1 0, 1 1 or 1 2 for not playing, playing and security alert, or invalid if a payload came with it |
| Answers.LoadAnswered | src/asm/service.cpp:165-179 | overflow flag and code agree, and mean more than 16 keys and entries for other ids (for a batch without repeats its new ids, on a distinct-id store the union of ids); success merges, in order |
| Answers.PurgeAnswered | src/asm/service.cpp:222-236 | always successful; the flag is 1 exactly when the id was absent; only that id goes and the others keep their order |
| Answers.PurgeAllAnswered | src/asm/service.cpp:238-260 | a payload is refused with invalid and no effect; otherwise the store is empty afterwards |
| Answers.QueryAllAnswered | src/asm/service.cpp:196-220 | a payload is refused with invalid; otherwise the client decodes the stored ids; the store stays as it is |
| Answers.IllegalLengthAnswered | src/asm/service.cpp:69-260 | a payload of illegal length is answered BadRequest if and only if the command carries a payload at all; otherwise with its own command and invalid, or successful for GetTime; the store stays as it is |
| Answers.ListAnswered | src/asm/service.cpp:83-108 | invalid exactly for a window that ends before it starts; otherwise the ids of the window |
| Answers.EventAnswered | src/asm/service.cpp:110-136 | invalid exactly for an id not in the log; otherwise the bytes of the first record's text |
| Answers.ListedEventsAreRetrieved | src/asm/service.cpp:83-136 | in a log without repeated ids, a listing that fits a frame reports each id of its window once, and each record listed is retrieved by its id in a later exchange exactly when its text fits a frame |
| Wire.InOctets4 | src/asm/codec.cpp:93-98 | the four bytes of a 32-bit number, most significant first |
| Wire.InOctets8 | src/asm/codec.cpp:100-104 | the eight bytes of a 64-bit number |
| Wire.LabelOnWire | src/asm/codec.cpp:15-42 | the sixteen bytes of every label |
| Wire.RequestOnWire | src/asm/codec.cpp:148-155 | every request frame byte by byte: label, 0x83, length, id, payload |
| Wire.ResponseOnWire | src/asm/codec.cpp:173-186 | every response frame byte by byte, the code 0, 1, 2 or 3 at the end |
| Wire.ReplyOnWire | src/transport/tls_server.cpp:130-153 | the bytes the server sends in any exchange |
| Wire.IdsOnWire | src/asm/le_key.cpp:57-65 | an id batch: count modulo 2^32, item length 4, each id at its place |
| Wire.RecordOnWire | src/asm/le_key.cpp:34-39 | a key record: id, key, expiry, attribute data |
| Wire.LoadOnWire | src/asm/le_key.cpp:259-267 | a key batch: count modulo 2^32, item length 32, each record at its place |
| Wire.WindowOnWire | src/asm/event_log.cpp:223-228 | a window request: start, then stop |
| Wire.GetTimeRequestFrame | docs/protocol-vectors.md:15-25 | the sample frame, for any request id |
| Wire.EventListResponseFrame | docs/protocol-vectors.md:27-39 | the sample frame, for any request id |
| Wire.LoadRequestFrame | docs/protocol-vectors.md:41-56 | the sample frame, for any request id and record |
| Wire.StatusResponseFrame | docs/protocol-vectors.md:58-71 | the sample frame, for any request id and status |
| Wire.BadRequestFrame | docs/protocol-vectors.md:73-84 | the sample frame, for any request |
| Runs.CapacityOverEveryRun | src/asm/le_key.cpp:119-257 | from an empty store (for the file-backed one, what opening a missing file gives), under any frames, restarts and failed writes, the process comes up again and holds at most 16 keys with distinct ids |
| Runs.QueryAllOverEveryRun | src/asm/service.cpp:196-220 | after every run of either store from empty, the key listing has each stored id once and is at most 97 bytes long |
| Runs.KeyRepliesShortOverEveryRun | src/asm/service.cpp:165-260 | after every run of either store from empty, any frame at all is answered, and by at most 97 bytes if a key command answers |
| Runs.BoundReached | src/asm/le_key.cpp:119-257 | 16 distinct records are accepted by an empty store of either kind, and the key listing is then 97 bytes long |
| Runs.RestartForgets | src/apps/asm_responder.cpp:46 | a restart of the store in memory forgets every exchange before it |
| Runs.OpenedFileStaysSoundIff | src/asm/le_key.cpp:164-192 | a store opened on an existing file comes up after every restart with at most 16 distinct ids, over every run, if and only if the records in the file are that |
| Runs.ForeignFileOpensToAnything | src/asm/le_key.cpp:164-192 | for every list of records, repeats and excess included, there is a file that opens to it |
| Runs.FileIsLastWrite | src/asm/le_key.cpp:164-257 | over every run with failing writes and restarts, the file parses to the records last written and a restart returns to them |
| Runs.StoresAgreeIff | src/asm/le_key.cpp:119-257 | from any file that opens, a restarted file-backed store and a store in memory give the same replies throughout if and only if no needed write fails, and then hold the same records in order |
| Runs.OpenFilesNeverFail | src/asm/le_key.cpp:245-249 | if the file opens at every exchange, no needed write fails |
| Runs.ExchangeEffect | src/asm/service.cpp:165-260 | unless records to write are lost, the effect of an exchange on an id is the one its request and reply frames tell |
| Runs.ExchangeAsToldIff | src/asm/service.cpp:165-260 | every id is affected as the two frames tell if and only if no records to write are lost |
| Runs.StoreIsClientView | src/asm/service.cpp:165-260 | over every run an id is stored exactly when an accepted load had it and no later successful purge took it, with the record last loaded |
| Runs.FileStoreIsClientView | src/asm/le_key.cpp:164-257 | the same for the file-backed store with restarts, as long as no needed write fails |
| Runs.QueryAnswersLookup | src/asm/service.cpp:181-194 | LEKeyQueryID answers 1 exactly for the ids the store holds |
| Runs.QueryIdOverEveryRun | src/asm/service.cpp:181-194 | over every run, LEKeyQueryID is answered 1 exactly when some accepted load of the id was not followed by a successful purge of it, and 0 otherwise |
| History.KnownIff | src/asm/service.cpp:165-260 | what a list of answered commands tells about an id, stated by its last load and the purges after it |

## Left out

- Sockets, the select loop, TLS contexts, certificates and peer identity: foreign calls.
- Partial reads, record size and failing writes on the connection: one read is taken to deliver the whole request.
- A reply longer than the client's own 4096-byte read: the model stops at the frame sent.
- `std::get_time` and the parser of the event file: the parsed event list is taken as given; it has no printer.
- The second copy of the event and id-batch loops (`JsonlEventLogProvider`, the id batch of event_log.cpp): same code as the copy modelled, apart from the error texts of the batch.
- The default event list, the enum-to-string tables and the command-line programs: constants.
- The one-byte payload decoders of the client: single tests.
- Expiry, busy replies and zeroisation of keys: in the standard, not in the code.
- Exhaustion of memory, and other processes changing the key file.
- KeyStores.JsonlLeKeyStore.Persist: a write that fails after the file was opened and truncated, such as on a full disk, is not noticed by the code; the model takes what is written to an opened file to be written.
- Server.TlsServer.ServeClient: leaves out connection writes that fail and the peer thumbprint of the trace, which comes from the certificate; when not even the BadRequest frame can be encoded (a request of 2^24 - 1 bytes or more, which no read delivers) the exception is reported in place of the frame, and the loop that catches it is not modelled.
- KeyStores.JsonlLeKeyStore.Open: takes the text of the file in place of a path, and `Open` returns a result where the C++ constructor throws.
- The wording of exceptions and trace notes: it appears in the definitions only.
- Aliasing of one store by several services: a service owns the store it is given.
