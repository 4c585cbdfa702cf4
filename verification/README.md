# kafka-maxscale-cdc-connector in Dafny

A model of the sequential core of the MaxScale CDC to Kafka connector. It covers five parts:

- **The MaxScale CDC client session** (`MaxscaleReader.Read`), in modules `MaxscaleReader`, `Hex` and `ByteStrings`. The session dials and authenticates with the hex of `user:` and the hex of the SHA-1 of the password. It registers with `REGISTER UUID=…, TYPE=…` and requests `REQUEST-DATA db.table[.version] [gtid]`. It then forwards newline-terminated lines until end of stream, an `ERR` line, a read failure or cancellation. The connection is a script: one result per `Write` call and one event per `Read` call (bytes, error, EOF, or the context being cancelled). `Read` is a pure function from the settings, the GTID to resume from and the dial result to the writes made, the number of reads, the forwarded lines and the outcome.
- **The GTID** (`Gtids`, `Decimal`). It holds a 32-bit domain, a 32-bit server id and a 64-bit sequence. Its text form is `d-s-q`, the text of an absent (nil) GTID is empty, and its parser refuses anything that is not three in-range unsigned decimals.
- **The sender loop** (`KafkaSender`). For each line it extracts the GTID, publishes the line keyed by the GTID's text, and only then saves the GTID as the checkpoint. The first failure stops the loop; a closed channel or a cancellation stops it cleanly. Kafka, the extractor and the store are parameters: the acknowledgements and the store results are scripts.
- **The checkpoint store** (`GtidStore`, `Paths`). It is a file `lastgtid` under a data directory, located with Go's `path.Join`/`path.Clean`, over a file system given as a map. `Checkpointing` composes the store with the sender.
- **The configuration check** (`AppConfig`). Its twelve checks run in source order and the first that fails names the error.

The `*Examples` modules restate the repository's unit tests as facts about the model.

## Model

| member | source | states |
|---|---|---|
| ByteStrings.StartsWith | cdc/maxscale_reader.go:160-165 | the empty prefix is always accepted, and a prefix longer than the line never is |
| ByteStrings.StartsWithIffConcat | cdc/maxscale_reader.go:160-165 | `startsWith(line, p)` holds exactly when the line is `p` followed by something |
| ReaderExamples.StartsWithCases | cdc/maxscale_reader_unit_test.go:28-75 | the five table cases of the unit test: both empty, substring, not equal, prefix longer than line, equal |
| ByteStrings.Split | cdc/kafka_sender.go:38 | `strings.Split` at one byte gives at least one piece, none containing the separator, and joining them restores the input |
| ByteStrings.SplitJoin | cdc/kafka_sender.go:38 | splitting a join of separator-free pieces gives the same pieces back |
| KafkaSender.Brokers | cdc/kafka_sender.go:38 | the broker list is the setting cut at commas: at least one address, none with a comma, and joined with commas it is the setting |
| Hex.Encode | cdc/maxscale_reader.go:148-156 | hex output is twice as long as its input and holds only lowercase hex digits |
| Hex.EncodeDigits | cdc/maxscale_reader.go:148-156 | byte `i` of the input becomes digits `2i` and `2i+1` of the output: its high nibble, then its low nibble |
| Hex.DecodeEncode | cdc/maxscale_reader.go:148-156 | hex encoding is lossless: decoding the hex text gives back exactly the bytes |
| Hex.EncodeAppend | cdc/maxscale_reader.go:148-156 | encoding a concatenation is the concatenation of the encodings |
| Hex.EncodeByDigits | cdc/maxscale_reader.go:148-156 | any text with the per-byte digits of `Encode` is the encoding (the digit description determines it) |
| Hex.EncoderWrites | cdc/maxscale_reader.go:148-156 | a `hex.Encoder` write reaches the connection as writes of at most 1024 hex bytes, one per 512 input bytes, none for empty input, and together they carry exactly the hex of the input |
| MaxscaleReader.AuthWritesCarryCredentials | cdc/maxscale_reader.go:144-158 | the auth writes carry exactly the hex of `user:` then the hex of SHA-1(password), and decoding that text gives the user, a colon and the digest |
| ReaderExamples.PrintAuth | cdc/maxscale_reader_unit_test.go:12-26 | for user `cdcuser`, password `cdc`, the auth text is `636463757365723a11fb6d5a105a66c85408b8005c461d53818b736e` |
| ReaderExamples.UserHexIs | cdc/reader_test.go:52 | the user part is one write, `636463757365723a` |
| ReaderExamples.DigestHexIs | cdc/reader_test.go:53 | the digest part is one write, `11fb6d5a105a66c85408b8005c461d53818b736e` |
| MaxscaleReader.AuthText | cdc/maxscale_reader.go:144-158 | no contract of its own: the auth text; AuthWritesCarryCredentials states that the auth writes carry it and that it decodes to the user, a colon and the digest |
| MaxscaleReader.HandshakeWrites | cdc/maxscale_reader.go:48-71 | no contract of its own: the writes of a complete handshake; HandshakeOpsWrite, HandshakeRunWrites and Read relate the session's writes to it |
| MaxscaleReader.RegisterCommand | cdc/maxscale_reader.go:58-61 | no contract of its own: `REGISTER UUID=<uuid>, TYPE=<format>`; RegisterFields states how the server reads it |
| MaxscaleReader.RegisterFields | cdc/maxscale_reader.go:58 | read back as the server splits it at spaces, a registration is `REGISTER`, `UUID=<uuid>,` and `TYPE=<format>` |
| MaxscaleReader.RequestCommand | cdc/maxscale_reader.go:111-122 | no contract of its own: `buildRequestCommand`; RequestFields states how the server reads it |
| MaxscaleReader.RequestFields | cdc/maxscale_reader.go:111-122 | read back as the server splits it at spaces, a request is the `REQUEST-DATA` keyword and `db.table[.version]`, plus a last field only when a GTID was given, and that field parses to the GTID |
| MaxscaleReader.ReadResponse | cdc/maxscale_reader.go:135-142 | one Read call into a 1024-byte buffer: it counts one read, writes nothing, never returns more than 1024 bytes and keeps a cancellation already noted |
| MaxscaleReader.ReadResponseTakesNext | cdc/maxscale_reader.go:135-142 | the bytes returned are those of the next Read (`NextResponse`); the rest of a longer chunk stays for the next Read, so returned and remaining bytes are exactly the bytes received; later events are untouched; a cancellation passed over is noted |
| MaxscaleReader.ExpectStep | cdc/maxscale_reader.go:124-133 | a response step makes exactly one read, writes nothing, and fails only with "read failed" or "login failed" |
| MaxscaleReader.ExpectStepIffOk | cdc/maxscale_reader.go:124-142 | a handshake step succeeds iff the next Read returns bytes (at most 1024 of them) starting with `OK`; it fails with "read failed" iff that Read returns an error or EOF |
| MaxscaleReader.WriteStep | cdc/maxscale_reader.go:48-71 | a Write call appends its bytes to the write trace, makes no read and fails, with the step's own error, exactly when the connection's next write result is a failure (an exhausted script accepts) |
| MaxscaleReader.RunStep | cdc/maxscale_reader.go:48-71 | a send step makes one write of its bytes and fails only with its own error; an expect step makes one read and no write |
| MaxscaleReader.RunOps | cdc/maxscale_reader.go:48-71 | steps run in order up to and including the first that fails, whose error is that step's error; the writes and reads made are exactly those of the steps run, and nothing after the failure is written or read |
| MaxscaleReader.HandshakeOpsWrite | cdc/maxscale_reader.go:48-71 | the handshake's steps write, in order, the hex auth writes, `REGISTER UUID=…, TYPE=…` and the request |
| MaxscaleReader.RunWritesPrefix | cdc/maxscale_reader.go:48-71 | a run of steps writes a prefix of their writes, and all of them when no step failed |
| MaxscaleReader.HandshakeRunWrites | cdc/maxscale_reader.go:48-71 | a handshake writes a prefix of auth, auth, register, request, and all four parts when it completes |
| MaxscaleReader.Stream | cdc/maxscale_reader.go:75-101 | every forwarded line is a complete newline-terminated line that does not start with `ERR`, and streaming fails only with streaming errors |
| MaxscaleReader.StreamEnding | cdc/maxscale_reader.go:78-91 | a stream ends as its terminator (the first event that is not data) says, unless an `ERR` line or 100 empty reads stop it first: a nil return after EOF means end of stream, "read line failed" means a read error, a cancelled stream met a cancellation |
| MaxscaleReader.StreamAccounting | cdc/maxscale_reader.go:75-101 | the forwarded lines are the received bytes in order and unchanged; an `ERR` line is a complete line right after them; unless the stream ended on `ERR` or on no progress, the dropped rest holds no newline (only a partial last line is lost) |
| MaxscaleReader.AccountsPrepend | cdc/maxscale_reader.go:88-99 | forwarding one more line keeps the accounting of the received bytes |
| MaxscaleReader.StreamOneLine | cdc/maxscale_reader.go:78-99 | a Read returning exactly one ordinary line forwards it unchanged and keeps streaming |
| MaxscaleReader.StreamErrLine | cdc/maxscale_reader.go:88-91 | a Read returning exactly one `ERR` line stops with that line as the error and forwards nothing |
| MaxscaleReader.Read | cdc/maxscale_reader.go:40-109 | a dial failure writes and reads nothing; the writes are always a prefix of the handshake's writes, in order; after a failing handshake step the writes and reads are exactly those of the steps run, so nothing later is written or read; a cancellation during the handshake makes no read after it; streaming reads come after all handshake reads; lines are forwarded only after the whole handshake; handshake errors forward nothing; a nil-error return follows a complete handshake |
| MaxscaleReader.ReadEnding | cdc/maxscale_reader.go:48-108 | a failing handshake step's error is returned with nothing forwarded; a cancellation during the handshake returns nil; after a complete handshake, EOF returns nil, a read error "read line failed" and a cancellation nil unless an `ERR` line or no progress comes first, and the forwarded lines are the bytes received after the handshake, in order |
| ReaderExamples.DialFails | cdc/reader_test.go:39-45 | a failing dial returns an error with no write and no read |
| ReaderExamples.WritesAuth | cdc/reader_test.go:47-54 | with an empty first response: two auth writes, one read, "login failed" |
| ReaderExamples.WriteAuthFails | cdc/reader_test.go:56-62 | failing writes: one write, no read, an error |
| ReaderExamples.ReadFails | cdc/reader_test.go:64-72 | a failing first read: two writes, one read, "read failed" |
| ReaderExamples.ResponseNotOk | cdc/reader_test.go:74-85 | the response `ERR banana`: two writes, one read, "login failed" |
| ReaderExamples.SendsRegister | cdc/reader_test.go:87-103 | after `OK` the register command is the third write |
| ReaderExamples.RegisterWriteFails | cdc/reader_test.go:105-117 | a failing register write stops after three writes with the register error |
| ReaderExamples.RegisterNotOk | cdc/reader_test.go:119-140 | `ERR` after register: three writes, two reads, "login failed" |
| ReaderExamples.SendsRequest | cdc/reader_test.go:142-160 | after two `OK`s the fourth write is `REQUEST-DATA mydb.mytable`, and a failing read then ends with "read line failed" after three reads |
| ReaderExamples.HandshakeDone | cdc/reader_test.go:142-160 | after two `OK`s the session is the four handshake writes followed by the stream of the remaining events |
| ReaderExamples.RequestAnsweredWithErr | cdc/reader_test.go:162-184 | `ERR` after the request: four writes, three reads, an error carrying the line |
| ReaderExamples.ForwardsLines | cdc/reader_test.go:186-212 | two lines then EOF: four writes, five reads, `line 3\n` and `line 4\n` forwarded in order, nil error |
| ReaderExamples.CancelledWhileStreaming | cdc/maxscale_reader.go:95-108 | a cancellation between two lines forwards the first only and returns nil |
| Gtids.OptionalText | cdc/gtid_test.go:32-35 | the text of an absent GTID is the empty string, and only that GTID's text is empty |
| Gtids.Text | cdc/gtid_test.go:24-30 | no contract of its own: the `d-s-q` text; TextIsCanonical, ParseText and TextInjective state what it means |
| Gtids.TextIsCanonical | cdc/gtid_test.go:24-30 | a GTID's text splits at `-` into exactly three shortest decimal spellings |
| Gtids.Parse | cdc/gtid_test.go:15-22 | a successful parse had exactly three `-`-separated fields and nothing but digits and separators |
| Gtids.ParseFields | cdc/gtid_test.go:15-21 | three fields parse iff each is a non-empty run of digits and the values fit 32, 32 and 64 bits; the GTID is their decimal values, leading zeros or not; a refused domain field is the reported error exactly when that field does not parse |
| Gtids.ParseText | cdc/gtid_test.go:24-30 | round trip: parsing a GTID's text gives that GTID |
| Gtids.TextParse | cdc/gtid_test.go:24-30 | round trip the other way: a parsed string is reproduced by the text of its GTID iff no field had a leading zero |
| Gtids.TextInjective | cdc/kafka_sender.go:65 | different GTIDs have different texts, so the message key identifies the GTID |
| Gtids.ParseRefusesFieldCount | cdc/gtid_test.go:15-22 | any number of fields other than three is refused, reporting how many there were |
| Gtids.ParseInRange | cdc/gtid_test.go:19-21 | three decimals parse iff domain and server id are below 2^32 and the sequence below 2^64: out-of-range values are refused, never wrapped |
| Decimal.Format | cdc/gtid_test.go:24-30 | `%d` writes the shortest decimal spelling, starting with `0` only for zero |
| Decimal.ValueFormat | cdc/gtid_test.go:24-30 | formatting a number and reading the digits back gives the number |
| Decimal.FormatValue | cdc/gtid_test.go:24-30 | reading a shortest spelling and formatting the value gives the spelling back |
| Decimal.ParseFormat | cdc/gtid_test.go:24-30 | the unsigned parse accepts what `%d` wrote, for every value in range |
| Decimal.ParseUint | cdc/gtid_test.go:15-21 | no contract of its own: `strconv.ParseUint` at a width; ParseFormat states that it accepts every in-range spelling and ParseFields what it returns |
| GtidExamples.ParsesOneTwoThree | cdc/gtid_test.go:15-30 | `1-2-3` parses to domain 1, server id 2, sequence 3, and prints back as `1-2-3` |
| GtidExamples.ParsesOneThreeThirtySeven | cdc/streamer_test.go:46-47 | `1-3-37` parses without error |
| GtidExamples.RefusesEmpty | cdc/gtid_test.go:32-35 | the empty text of an absent GTID does not parse back |
| GtidExamples.RefusesSign | cdc/gtid_test.go:19-21 | a signed field is refused |
| Paths.CleanKeepsLastName | cdc/gtid_store.go:33-35 | cleaning a path whose last element is a name keeps that name as its last element |
| Paths.CleanOfCleanDirJoin | cdc/gtid_store.go:33-35 | a name joined onto a directory already in clean form is left alone by `path.Clean` |
| Paths.ResolveNames | cdc/gtid_store.go:33-35 | plain names pass through `path.Clean`'s element resolution unchanged |
| Paths.Clean | cdc/gtid_store.go:33-35 | no contract of its own: `path.Clean`; ResolveNames, CleanKeepsLastName and CleanOfCleanDirJoin state what it keeps |
| Paths.Join2 | cdc/gtid_store.go:33-35 | no contract of its own: `path.Join` of two elements; CheckpointPathEndsWithFileName and CheckpointPathOfCleanDir state its results for the checkpoint file |
| GtidStore.CheckpointPathEndsWithFileName | cdc/gtid_store.go:33-35 | whatever the data directory, the checkpoint path ends in the element `lastgtid` |
| GtidStore.CheckpointPathOfCleanDir | cdc/gtid_store.go:33-35 | for a clean non-empty data directory the path is the directory, a slash and `lastgtid` |
| GtidStore.CheckpointPath | cdc/gtid_store.go:33-35 | no contract of its own: `path()`; CheckpointPathEndsWithFileName and CheckpointPathOfCleanDir state where it points |
| StoreExamples.AbsoluteDataDir | cdc/gtid_store.go:33-35 | data directory `/data` gives `/data/lastgtid` |
| StoreExamples.EmptyDataDir | cdc/gtid_store.go:33-35 | an empty data directory gives `lastgtid` |
| GtidStore.Write | cdc/gtid_store.go:29-31 | a write fails iff the path cannot be written; otherwise the checkpoint path holds exactly the GTID's text (empty for nil) and every other file is unchanged |
| GtidStore.Read | cdc/gtid_store.go:20-26 | a missing file is an error naming the path; a present file reads as a GTID iff its contents parse, to that GTID, and otherwise fails with the parse error |
| GtidStore.WriteThenRead | cdc/gtid_store.go:20-31 | a GTID written to the store is the GTID read back |
| GtidStore.WriteAbsentThenRead | cdc/gtid_store.go:20-31 | after writing nil the file is empty and reading it back fails to parse |
| KafkaSender.Send | cdc/kafka_sender.go:29-77 | a client or producer failure returns its error before any line is taken; otherwise the sender runs the line loop |
| KafkaSender.Loop | cdc/kafka_sender.go:51-76 | the loop never takes more deliveries than there are |
| KafkaSender.LoopConsumes | cdc/kafka_sender.go:51-76 | every delivery taken is a line; a closed channel or cancellation stops with nil right after the lines; only extract, publish and save errors end the loop, and each after taking a line |
| KafkaSender.LoopStepsInOrder | cdc/kafka_sender.go:59-74 | every completed line was extracted, acknowledged and saved; an extraction failure, a publish failure or a save failure is located at the first incomplete line, with the earlier steps of that line succeeded |
| KafkaSender.LoopEffects | cdc/kafka_sender.go:59-74 | the effects are, line by line, publish then checkpoint for every completed line, plus a lone publish of the failing line when its save failed |
| KafkaSender.HandledEffects | cdc/kafka_sender.go:63-74 | for handled lines, the published messages carry the topic, the GTID text as key and the line as value; the checkpoints are the lines' GTIDs; every checkpoint directly follows its publish |
| KafkaSender.SendEffects | cdc/kafka_sender.go:51-76 | published messages and checkpoints of a whole send: one each per completed line in order, one extra publish exactly when the save failed, and no checkpoint without its publish just before it |
| KafkaSender.CountingInvariant | cdc/kafka_sender.go:51-76 | checkpoints ≤ publishes ≤ checkpoints + 1 and publishes ≤ lines taken, with an unmatched publish exactly when a save failed |
| KafkaSender.LastCheckpoint | cdc/kafka_sender.go:63-74 | the last checkpoint is the GTID of the last completely handled line |
| Checkpointing.SaveAllKeepsLast | cdc/gtid_store.go:29-31 | on a writable path a sequence of saves succeeds and leaves the text of the last GTID in the file |
| Checkpointing.NeverFailsSaving | cdc/kafka_sender.go:72-74 | with a store that accepts every write the sender never stops with "save gtid failed" |
| Checkpointing.ResumesAfterLastHandledLine | cdc/kafka_sender.go:63-74 | with the sender's checkpoints saved in a writable store, reading the store gives the GTID of the last completely handled line |
| AppConfig.Validate | cdc/app.go:36-74 | validation succeeds iff both ports are positive, the eight text settings are non-empty and the format is `JSON` or `AVRO`; a reported error names a setting that is in fact wrong |
| AppConfig.FirstViolationIsFirst | cdc/app.go:36-74 | the reference check order reports nothing iff no check fails, and otherwise a check that fails with every earlier one passing |
| AppConfig.ValidateIsFirstViolation | cdc/app.go:37-72 | `Validate` reports the first failing check in source order (all twelve checks) |
| AppConfig.ValidateIsFirstDistinctViolation | cdc/app.go:37-72 | the same without the repeated table check |
| AppConfig.SecondTableCheckUnreachable | cdc/app.go:61-69 | dropping the second `CdcTable` check changes no result: it is unreachable |
| AppConfig.ClearedSettingIsReported | cdc/app_test.go:49-84 | clearing any one required setting of a valid configuration is reported with that setting's error |
| AppConfig.FormatIsExact | cdc/app.go:70-72 | on a valid configuration a format is accepted iff it is exactly `JSON` or `AVRO` |
| AppExamples.BaselineIsValid | cdc/app_test.go:16-32 | the test's baseline configuration validates |
| AppExamples.BaselineFormats | cdc/app_test.go:37-48 | `banana` is refused, `JSON` and `AVRO` accepted |
| AppExamples.PortReportedBeforeTopic | cdc/app.go:37-45 | with both the port and the topic missing, the port is reported |

## Left out

- `cdc/streamer.go`, `cdc/retry_reader.go`: goroutines, fail-fast cancellation and a restart loop with sleeps. They are concurrency, not sequential logic.
- `cdc/reader.go`, `cdc/sender.go`: the superseded reader and sender.
- `cdc/tcp_dialer.go`: the real TCP connection. The `Connection` interface (`cdc/tcp_dialer.go:20-24`) is the scripted connection.
- `App.Run`, the HTTP and metrics server, `main.go`, `cmd/cdc-print-json`: flags, signals and I/O plumbing.
- Logging and the Kafka producer settings (acks, retries, version). Connecting a client, starting a producer and acknowledging a message are parameters.
- SHA-1 is a parameter returning 20 bytes. Only the hex framing around it is modelled, and the example scenarios state the digest of `cdc`.
- `cdc/gtid.go` is not part of this model. `ParseGTID` and `String` are modelled from the GTID tests: `%d` fields joined by `-`, and an unsigned decimal parse of each field at its width. That parse accepts leading zeros and refuses signs, empty fields and overflow.
- `cdc/gtid_extractor.go` is not part of this model. The extractor is an arbitrary function from a line to a GTID (possibly nil) or an error.
- A Go `Read` that returns both bytes and an error has no event of its own. While streaming it is scripted as a data event followed by the error event, because `bufio` hands out the buffered lines before the error; the model then counts one more Read call than the program makes. In the handshake it is scripted as the error event alone, because `read` drops the bytes and returns "read failed" (`cdc/maxscale_reader.go:137-140`).
- `bufio.Reader`'s 4096-byte buffer is not modelled. Stream chunks go straight into the pending bytes. So the number of underlying Read calls can differ whenever a scripted chunk is larger than the free space left in that buffer: the program then needs more Read calls to take it. The bytes and the lines do not differ.
- Cancellation is an event in the read script. The `select` between a forwarded line and the context is resolved in favour of the event order. The handshake does not watch the context, so a cancellation during it takes effect after the request write.
- The sender's channel is a sequence of deliveries. When it runs out the loop is `Waiting`, which stands for Go blocking on the channel.
- Both handshake responses fail with the same "login failed" in the code, including the response to `REGISTER`. The model follows the code.
- A file that exists but cannot be read is not distinguished from a missing one. A path that cannot be written is given as a set of read-only paths.
- MaxscaleReader.RequestFields: requires the database, table and version names contain no space. With a space the server's split sees more fields.
- MaxscaleReader.RegisterFields: requires the UUID and the format contain no space, for the same reason.
- Ports are unbounded integers. `Validate` only compares them with zero.
