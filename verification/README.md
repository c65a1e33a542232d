# A model of the TIL90 driver

The repository is a local driver for one tilt sensor. It talks to the sensor over a framed serial
link, decodes bit-packed messages, recovers the sensor's history into tables, raises alerts, backs
up and restores its configuration, and sends it firmware. This project models the parts that carry
state, bits or failures, and proves what they promise: over every byte stream and every way of
cutting it, every failure, every interleaving of clients and workers, and every nested
configuration.

Devices and links that may fail follow a schedule, a function from steps to outcomes that every
theorem quantifies over; a store may fail in any operation, before it has taken effect or after (a
write that is durable and cannot be read back); time-outs are a number of polls or the end of the
input.

| file | subject |
|---|---|
| `Common.dfy` | `byte`, `Option`, `Result` |
| `Framing.dfy`, `FramingTheorems.dfy` | the frame parser object, the encoder, the parser's exact language |
| `BitNumbers.dfy`, `BitReader.dfy` | bits and big-endian numbers, the bit cursor |
| `Messages.dfy` | the header, recovered messages, response codes |
| `Readings.dfy`, `Health.dfy` | the variable-length measurement and health messages |
| `ConfigMessages.dfy`, `WriteEncoders.dfy` | configuration responses, configuration writes, and their agreement |
| `WireBytes.dfy` | the same responses and writes told byte by byte, apart from the bit tables |
| `Crc.dfy`, `Xmodem.dfy` | CRC-16 as a register over bits and as a remainder, the XMODEM/CRC sender against a standard receiver |
| `HistoryStream.dfy` | recovering history from a chopped stream |
| `Store.dfy` | the measurement and job tables, and the store as an object |
| `HistoryImport.dfy`, `HistoryTheorems.dfy` | the import as a state machine, what holds over all its runs |
| `HistoryCompletion.dfy`, `HistoryRaces.dfy` | when a job can complete, what can still happen to a complete one |
| `HistoryDevice.dfy` | the answers of the state machine as recovered byte streams |
| `HistoryManager.dfy` | the manager as an object; every method is a run of the state machine |
| `Alerts.dfy` | the alert table and the rules |
| `ConfigDiff.dfy`, `RestorePlan.dfy`, `Restore.dfy` | the recursive diff, restore plans, the guarded restore |
| `Regional.dfy` | the regional radio profile and its rollback |

`dafny verify dfyconfig.toml` checks all of it.

## What the proofs brought out

- A single DLE before a frame makes the parser drop that whole frame, whatever its body:
  `FrameAfterNoise` gives the exact condition on noise, which is weaker than "no DLE".
- A framing error loses the frames completed earlier in the same `feed` call.
- `insert_record` looks up fields in the data of a record. Data that is a plain number other than
  0, as a recovered sampling-rate response has, makes it raise, and the worker pauses. A job whose
  range holds such a record never completes (`CompleteNeedsImportable`). After any run whatsoever a
  job can still complete if and only if no record of its range raises, its chunks lie in 32 bits and
  none holds more records than allowed (`CompletionIffImportable`). For the device's byte stream that
  means: a chunk is recovered exactly when it holds no more records than allowed and its wire image
  is no longer than 2 MiB (`RecoveredIsAnswer`); the second adds nothing for messages of up to 520
  bytes (`ShortFits`). The 40 seconds for one chunk are outside this statement.
- Records without a table are counted as duplicates: `received = imported + duplicates` holds, but
  `duplicates` is not the number of keys seen twice.
- A complete job can still change in exactly three ways (`CompleteIsLeftAlone`). A `cancel` that
  checks the active job before the worker ends and marks it after turns it into one that is
  `cancelling` (`LateCancelMarksCompleteJob`); it stays so until a worker is started
  (`CancellingStays`), and a resume completes it again (`ResumeCompletesAgain`). A resume that looked
  the job up before the worker finished starts a worker on it (`LateStartRequeuesCompleteJob`). And
  with no client at all: the store takes "complete" and fails before it is read back, and the
  worker's failure handler writes "paused" over it (`LostReadbackPausesCompleteJob`).
- A slot time of 0 is valid in a backup and cannot be written. A plan towards it fails
  (`PlanExistsIff`), and a restore away from it cannot be rolled back without an error
  (`ApplyRestore`).
- The rule for blocked changes is a prefix test on text. A channel field that only starts like
  "enabled" passes it without being written: the plan can be applied, and the restore fails after
  its writes and rolls back (`NamesakeSlipsThrough`). That is the only gap (`PlanSuffices`), and the
  decoder's own fields do not have it.
- A restore records a field after its acknowledgement, so an unacknowledged write that took effect
  is not rolled back (`StrayWriteStays`). Without a reported rollback error the old values are back if
  and only if the write on which the restore gave up did not do that (`FailedRestoreIsOldIff`). The
  regional profile records before it sends and does not have that gap. Its rollback reads back but
  does not compare, so without a reported error the radio is the old one if and only if the device
  obeyed every write of the rollback (`FailedProfileIsOldIff`), and that can fail
  (`RollbackCanBeIgnored`).
- The diff shows paths as text with dots. Without dots in the keys no entry repeats or extends another
  (`TextsApart`); with one, two places can show the same text (`DotsCanCollide`).
- A probe count below 0 or above 10 never gets a block accepted (`SendXmodem`).

## Model

| member | source | states |
|---|---|---|
| Framing.StreamFrameParser.constructor | tools/packet_parser/frame.py:106-111 | a new parser waits for DLE and holds nothing |
| Framing.StreamFrameParser.Reset | tools/packet_parser/frame.py:117-119 | afterwards the parser is as good as new |
| Framing.StreamFrameParser.AppendByte | tools/packet_parser/frame.py:121-127 | a byte is appended below the limit; at the limit the parser is reset and raises |
| Framing.StreamFrameParser.Feed | tools/packet_parser/frame.py:129-166 | feeding a chunk is running the four-state machine over its bytes; after any error the parser is fresh; the buffer never passes the limit |
| FramingTheorems.FeedSplits | tools/packet_parser/frame.py:129-166 | feeding a + b is feeding a, then b, with concatenated output and the same errors |
| FramingTheorems.ChunkingIsIrrelevant | tools/packet_parser/frame.py:129-166 | for any list of chunks the outcome is that of the whole stream |
| FramingTheorems.RoundTrip | tools/packet_parser/frame.py:129-173 | any bodies within the limit, encoded, with DLE-free noise around them and cut anywhere, come back exactly, with no partial frame left |
| FramingTheorems.WireIsParsed | tools/packet_parser/frame.py:129-173 | the same for every noise that holds no DLE paired with STX |
| FramingTheorems.ParserLanguage | tools/packet_parser/frame.py:103-166 | for every outcome, the inputs that lead to it: gaps, encodings of the emitted bodies, and a tail of the matching kind, in both directions |
| FramingTheorems.EmittedFramesAreInput | tools/packet_parser/frame.py:103-166 | emitted bodies account for disjoint pieces of the input, in order, equal to their encodings; bodies and buffer are within the limit |
| FramingTheorems.FrameAfterNoise | tools/packet_parser/frame.py:129-166 | after noise that opens no frame, the next frame is received exactly when the parser waits for DLE and lost whole when it waits for STX |
| FramingTheorems.FrameBytes | tools/packet_parser/frame.py:169-173 | a frame is the bytes 10 02, the body with every 10 doubled, and 10 03 |
| FramingTheorems.FrameOrTooLarge | tools/packet_parser/frame.py:121-166 | a waiting parser receives an encoded body exactly if it is within the limit, which is 1024 bytes for the application, and raises the size error otherwise |
| FramingTheorems.OneFrameIff | tools/packet_parser/frame.py:169-185 | a fresh parser yields exactly one body and rests if and only if the input is its encoding with gaps around it |
| FramingTheorems.DecodeFrame | tools/packet_parser/frame.py:176-185 | returns a body exactly when the input is one encoding of it with gaps around it; the error otherwise tells raised errors, a partial frame and a wrong number of frames apart; a limit of 0 or less is a value error |
| BitReader.Bits.constructor | tools/packet_parser/messages.py:17-19 | a new cursor stands before the first bit and has all bits to read |
| BitReader.Bits.Unsigned | tools/packet_parser/messages.py:21-29 | reads exactly when the width is positive and there are enough bits; then the bits read are those of the result and the cursor moves by the width; a refused read moves nothing |
| BitReader.Bits.Signed | tools/packet_parser/messages.py:31-34 | as Unsigned, with a result in the signed range whose two's complement is the bits read |
| BitReader.Bits.Boolean | tools/packet_parser/messages.py:36-37 | as Unsigned for one bit |
| BitReader.ReadIsShiftAndMask | tools/packet_parser/messages.py:21-29 | a read at offset k is the payload as one big-endian number, shifted right by what follows, modulo 2^width |
| BitReader.ReadsCombine | tools/packet_parser/messages.py:21-29 | reading a + b bits is reading a, then b, and combining |
| BitReader.SignedIsUnique | tools/packet_parser/messages.py:31-34 | two numbers in the signed range are equal exactly when their two's complements are |
| Messages.HeaderRoundTrip | tools/packet_parser/frame.py:71-93 | a body parses to a header exactly when it starts with that header's six bytes, its fields are in range and, if asked for, the version is 4 |
| Messages.HeaderInBytes | tools/packet_parser/frame.py:71-93 | the fields of a header as arithmetic on its six bytes, with the four high bits of the node in the first |
| Messages.Payload | tools/packet_parser/messages.py:40-45 | succeeds exactly on a good header of an allowed type, with that header and a cursor over all that follows it |
| Messages.UnwrapUndoesWrap | tools/packet_parser/messages.py:513-521 | unwrapping gives a capture ID and a message exactly on the wrapper of that message; the inner header always parses and names the same node |
| Readings.DecodeTil90Reading | tools/packet_parser/messages.py:258-273 | decodes to a value exactly when the payload starts with that value's packed fields, for every version and axis combination; succeeds exactly when header, type and the computed number of bits are there |
| Readings.DecodeTil90AlarmReading | tools/packet_parser/messages.py:194-243 | the same for alarm readings, for every axis and alarm combination |
| Readings.ReadingUnique | tools/packet_parser/messages.py:258-273 | a body is a reading of at most one value, whose width is the one its flags ask for |
| Readings.AlarmReadingUnique | tools/packet_parser/messages.py:194-243 | the same for alarm readings |
| Readings.ReadingRoundTrip | tools/packet_parser/messages.py:258-273 | any reading in range, packed MSB-first behind its header with any padding, is a reading of exactly that value, signs included |
| Readings.AlarmReadingRoundTrip | tools/packet_parser/messages.py:194-243 | the same for alarm readings |
| Readings.ReadingPositions | tools/packet_parser/messages.py:246-273 | every field of a decoded reading by its absolute bit position: axes that are on follow each other from bit 54, x first, with angle before deviation, then the azimuth |
| Readings.AlarmReadingPositions | tools/packet_parser/messages.py:194-243 | the same for alarm readings: behind the axes three flags, and if the third is set the axis flags z to x, three reserved bits and the alarms x to z |
| Health.DecodeNodeHealth | tools/packet_parser/messages.py:66-112 | decodes to a value exactly when the payload starts with that value's packed fields, in all three layouts; succeeds exactly when header, type and the layout's number of bits are there |
| Health.HealthUnique | tools/packet_parser/messages.py:66-112 | a body is a health message of at most one value, whose width is the one its type and flags ask for |
| Health.HealthPositions | tools/packet_parser/messages.py:66-112 | every field of a decoded health message by its absolute bit position, in all three layouts |
| ConfigMessages.DecodeNumber | tools/packet_parser/messages.py:276-278 | the number at the start of the payload, or the error of header, type or length; also the slot time and the network ID |
| ConfigMessages.DecodeInc360ChannelConfig | tools/packet_parser/messages.py:319-326 | the fields lie at their absolute bit positions, the axes from z to x |
| ConfigMessages.DecodeLoraGeneralConfig | tools/packet_parser/messages.py:389-418 | the fields lie at their absolute bit positions |
| ConfigMessages.DecodeLoraChannelsConfig | tools/packet_parser/messages.py:435-446 | channel i is enabled by bit 8 + i and has the 32 bits at 16 + 32 i, or 0 if it is disabled |
| ConfigMessages.DecodeLoraJoinConfig | tools/packet_parser/messages.py:475-501 | both identifiers byte by byte and the policy fields at their bit positions |
| WireBytes.SamplingBytes | tools/packet_parser/messages.py:276-278 | a body decodes to a sampling time exactly if it is a version-4 body of type 0x82 whose bytes 6 to 8 spell it, high byte first |
| WireBytes.SlotTimeBytes | tools/packet_parser/messages.py:449-451 | the same for the slot time, type 0x90, bytes 6 and 7 |
| WireBytes.NetworkIdBytes | tools/packet_parser/messages.py:454-456 | the same for the network ID, type 0x8D, bytes 6 to 9 |
| WireBytes.Inc360Bytes | tools/packet_parser/messages.py:319-326 | version, reserved bits and axis flags as arithmetic on byte 6 |
| WireBytes.LoraGeneralBytes | tools/packet_parser/messages.py:389-418 | all fields as arithmetic on bytes 6 to 15 |
| WireBytes.LoraChannelsBytes | tools/packet_parser/messages.py:435-446 | flag i is bit 7 - i of byte 7, and frequency i the four bytes from 8 + 4 i, high byte first, or 0 if the flag is off |
| WireBytes.LoraJoinBytes | tools/packet_parser/messages.py:475-501 | both identifiers are bytes 7 to 22, and the policy is arithmetic on bytes 23 to 28 |
| WriteEncoders.SamplingAgrees | tools/config_backup.py:139-142 | behind any version-4 header start, an encoded sampling write decodes to its value |
| WriteEncoders.ChannelsAgree | tools/config_backup.py:145-153 | the same for every non-empty set of axes |
| WriteEncoders.SlotTimeAgrees | tools/config_backup.py:156-159 | the same for slot times |
| WriteEncoders.LoraChannelsAgree | tools/radio_configuration.py:40-50 | the same for any eight 32-bit frequencies; a channel reads as disabled exactly when its frequency is 0 |
| WriteEncoders.MaskIsFlags | tools/radio_configuration.py:47 | the sum of shifted ones spells the channel flags as a binary number, at every prefix |
| WriteEncoders.JoinAgrees | tools/radio_configuration.py:170-178 | a join write decodes to both identifiers and the fixed policy |
| WriteEncoders.JoinInjective | tools/radio_configuration.py:170-178 | two join writes are equal exactly when node and network are |
| WireBytes.SamplingWriteBytes | tools/config_backup.py:139-142 | a number encodes to a body exactly if the body is 0x82 and that number in three bytes, high byte first, and it is positive |
| WireBytes.SlotTimeWriteBytes | tools/config_backup.py:156-159 | the same with 0x90 and two bytes |
| WireBytes.ChannelsWriteBytes | tools/config_backup.py:145-153 | an axis set encodes to a body exactly if the body is 0x9A and a byte with the bits 4, 2 and 1 for z, y and x, at least one of them set |
| WireBytes.ChannelsOfWrite | tools/radio_configuration.py:40-50 | a channel write exists exactly for the two types and eight 32-bit numbers; it holds a zero byte, a mask with a bit for every number that is not zero, and all eight numbers, high byte first |
| WireBytes.JoinWriteBytes | tools/radio_configuration.py:170-178 | a join write exists exactly for 20-bit nodes and positive 32-bit networks, and holds each of them added to 70B3D52C70100000 as eight big-endian bytes, then 27 60 00 01 18 00 |
| WriteEncoders.AuthVerifies | tools/radio_configuration.py:158-167 | an authentication write exists exactly for positive 32-bit network IDs and passwords of 1 to 128 bytes; it carries both keys and the network ID and has residue 0; with any other last two bytes it would not |
| WriteEncoders.BackupBodyIs | tools/radio_configuration.py:181-188 | the body that repeats a response is all of it behind five bytes, and must have at least two |
| WriteEncoders.BackupBodyAgrees | tools/radio_configuration.py:181-188 | a write that repeats a response decodes, behind any version-4 header start, to what the response decoded to |
| Crc.CrcIsRemainder | tools/firmware_service.py:29-30 | the CRC is the remainder of the message and sixteen zeros divided by the polynomial 0x11021, by schoolbook division |
| Crc.GeneratorIsInvisible | tools/firmware_service.py:29-30 | adding the polynomial 0x11021 anywhere to a bit string does not change its register |
| Crc.CrcOfOne | tools/firmware_service.py:29-30 | any number of zero bytes and 0x01 have the CRC 0x1021 |
| Crc.ResidueIffCrc | tools/firmware_service.py:29-30 | data of any length followed by two bytes has residue 0 exactly when they are its big-endian CRC |
| Crc.OffByOneNeverVerifies | tools/firmware_service.py:110-114 | data followed by its CRC plus one, modulo 65536, never has residue 0 |
| Crc.BurstDetected | tools/firmware_service.py:29-30 | two inputs that differ only inside sixteen neighbouring bits have different CRCs |
| Xmodem.BlocksArePaddedPayload | tools/firmware_service.py:105-107 | the blocks are the payload and fewer than 128 bytes of 0xFF, and as many as 128 goes into it, rounded up |
| Xmodem.RawReader.constructor | tools/firmware_service.py:64-67 | a new reader holds nothing |
| Xmodem.RawReader.NextByte | tools/firmware_service.py:69-78 | delivers every byte that arrives once and in order, also if it arrives in an earlier call, and nothing only when nothing has arrived or the deadline leaves no time to read and hand over; the transcript keeps all |
| Xmodem.GoodPacket | tools/firmware_service.py:110-114 | every packet that is no probe has the right number, complement and CRC, and carries the block |
| Xmodem.ProbePacket | tools/firmware_service.py:110-114 | no probe packet is well formed |
| Xmodem.OneAttempt | tools/firmware_service.py:109-122 | whatever the link does to one packet, the receiver waits for the block or has it once; the reply is 06 exactly for a packet that is no probe and arrives with its reply, and then it has it; a probe that arrives is answered 15 |
| Xmodem.SendBlock | tools/firmware_service.py:107-128 | succeeds with a retries exactly when packet a is the first that is no probe, is delivered and is acknowledged, and none before it is cut short or answered by a cancel; the block has then been stored exactly once; every packet on the wire is 01, the number, its complement, the block and its CRC, high byte first, or that plus one for a probe; an error tells whether the last packet was cut short or answered by a cancel, or that all eleven went by |
| Xmodem.SendEnd | tools/firmware_service.py:129-134 | succeeds exactly when one of ten end marks is delivered and acknowledged with none before it cut short; the receiver has then seen it and stored nothing more |
| Xmodem.SendXmodem | tools/firmware_service.py:96-134 | for every schedule of the link: succeeds if and only if every block is accepted within its eleven writes and the end mark within its ten; on success the receiver holds exactly the padded blocks in order, across the wrap of block numbers, and writes = blocks + retries + end attempts; on failure a prefix; retries and end marks are exactly those the schedule makes, on a lossy link too, and all that went over the wire is the transfer they describe; an error tells what became of the last write, and a missing end acknowledgement leaves the whole payload delivered |
| HistoryStream.RunHistory | tools/til90_cli.py:271-358 | the loop over reads gives the result that the specification gives for the chunk list |
| HistoryStream.ScanBodies | tools/til90_cli.py:287-350 | the inner loop over the frames of one read, with records, unexpected frames and the way it ends |
| HistoryStream.AnswerIsStream | tools/til90_cli.py:287-350 | an answer is the decoded stream up to its first response: that gives the code, every frame so far is from the expected node, the records are the unwrapped recovery frames in order and one for one, the unexpected frames are all others in order, both limits hold |
| HistoryStream.FrameDecides | tools/til90_cli.py:287-350 | what any frame with a version-4 header does, in terms of its header and bytes: wrong node, a response code with its high byte first, a recovered message and its capture ID, a record too many, or a frame kept aside |
| HistoryStream.CutsAgree | tools/til90_cli.py:276-318 | two cuts of one stream, or of a stream and an extension of it, that are both answered give the same code and records |
| HistoryStream.EveryResultIsStream | tools/til90_cli.py:276-358 | every result, not only an answer, is what the frames of some first reads together come to, or the error they raise, or a byte limit they pass; a time-out has read everything |
| HistoryStream.RecordsNameTheNode | tools/til90_cli.py:290-338 | the inner message of every record names the expected node too |
| HistoryStream.ParsedStreamIsAnswered | tools/til90_cli.py:276-318 | a stream that parses and ends the recovery is answered however it is cut, if the byte limit covers it |
| HistoryStream.DeviceLogIsRecovered | tools/til90_cli.py:271-350 | a device that wraps and sends every logged message and then an end mark, given as bytes with the code 00 80, with DLE-free noise between frames and any cuts, is recovered exactly, with status ok |
| Store.InsertAllAt | tools/monitoring_store.py:162-189 | after inserting a list, a key holds its old row, or else the row of the first record with that key, or nothing |
| HistoryImport.RunKeeps | tools/history_manager.py:37-125 | every run of client and worker steps, with faults before or after the effect of any of them, keeps the invariant: one worker, tiled chunks, covered ranges, accounted counters, first writer wins |
| HistoryImport.DoKeeps | tools/history_manager.py:37-125 | each single step keeps it |
| HistoryTheorems.AtMostOneWorker | tools/history_manager.py:51-65 | over every interleaving of create, resume, cancel, stop and worker steps at most one worker is alive |
| HistoryTheorems.CursorsNeverDecrease | tools/history_manager.py:111-117 | no step moves a cursor back, drops a job or changes its request |
| HistoryTheorems.JobAccounting | tools/history_manager.py:86-118 | at every moment received = imported + duplicates, received is the number of entries logged from the start up to the cursor, and the cursor is min(start + chunks * chunk size, end + 1); a complete job has cursor end + 1 and exactly the rounded-up number of chunks |
| HistoryTheorems.ImportedIsBacked | tools/history_manager.py:99-117 | the imported counters of all jobs together never exceed the rows added |
| HistoryTheorems.RowsAreAccounted | tools/history_manager.py:99-117 | the imported counters are exact: after any run, the rows added are those counted in the jobs, those of the chunk under way, and those of chunks that workers left uncommitted |
| HistoryTheorems.CompleteAgrees | tools/history_manager.py:83-122 | when a job is complete, its range of the tables is what one first-wins insertion of the log over the range leaves, whatever interruptions, failures and other jobs there were |
| HistoryTheorems.SoleJobAgrees | tools/history_manager.py:83-122 | with a single job the whole tables agree |
| HistoryCompletion.CompleteNeedsImportable | tools/history_manager.py:92-110 | a job is only ever complete if no record of its range raises and every chunk is within range and record limit |
| HistoryCompletion.ImportableCompletes | tools/history_manager.py:37-125 | from any reachable state, whether the job is queued, running, paused, cancelled or finished and wherever a worker is, some schedule completes an importable job |
| HistoryCompletion.CompletionIffImportable | tools/history_manager.py:37-125 | after any run whatsoever a job can still complete if and only if its range is importable |
| HistoryRaces.CompleteIsLeftAlone | tools/history_manager.py:37-122 | after any run, a step changes a complete job if and only if it is the last step of a cancel that checked the job before, a start by a client that looked it up before while no worker is alive, or the write of the failure handler of its own worker; also while that worker is on its way out |
| HistoryRaces.RunStaysClosing | tools/history_manager.py:118-125 | in every run, a worker whose job is complete is past its loop: in its failure handler, in its finally block, or done |
| HistoryRaces.LateCancelMarksCompleteJob | tools/history_manager.py:68-75 | there is a run in which a late cancel marks a finished job as cancelling, with no worker left |
| HistoryRaces.LateStartRequeuesCompleteJob | tools/history_manager.py:37-65 | there is a run in which a late resume starts a worker on a finished job |
| HistoryRaces.LostReadbackPausesCompleteJob | tools/history_manager.py:118-122 | there is a run in which a job is complete and the next step of its own worker, and of no client, makes it paused |
| HistoryRaces.CancellingStays | tools/history_manager.py:68-75 | a job marked so stays as it is through every run in which no worker is started |
| HistoryRaces.ResumeCompletesAgain | tools/history_manager.py:37-66 | a resume of a finished job that is not marked complete, by any client, completes it again in two worker steps |
| HistoryDevice.RecoveredIsAnswer | tools/til90_cli.py:271-350 | for a device that wraps and sends the messages of a range, each fitting a frame, and then the end mark, under any cuts, the recovery is ok exactly when there are no more records and no more bytes than allowed, and then the decoded records are the import's answer for the range |
| HistoryDevice.AnswersAreRecoveries | tools/device_service.py:158-181 | the state machine has a chunk answered, and its stream is within the byte limit, exactly when its range is valid and the stream is recovered, with the same records; the byte limit may be left out if all messages are short |
| HistoryDevice.ShortFits | tools/device_service.py:176 | 2000 messages of up to 520 bytes and an end mark as short never reach the byte limit |
| Store.MonitoringStore.InsertRecord | tools/monitoring_store.py:152-189 | raises exactly on data that is a non-zero number; axes go to samples and health fields to health, under the node of the header, or of the inner header if that is missing or 0, and the timestamp, unless that key exists; reports whether it did, or fails before or after that; data without a timestamp or a table stores nothing and reaches no statement that could fail |
| Store.MonitoringStore.CreateHistoryJob | tools/monitoring_store.py:310-326 | appends a queued job whose cursor is its start, or fails before or after that |
| Store.MonitoringStore.HistoryJob | tools/monitoring_store.py:323-326 | the job with the ID, or none, or a failure |
| Store.MonitoringStore.UpdateStatus | tools/monitoring_store.py:335-350 | changes the status of one job and nothing else, or fails before or after that; without such a job it changes nothing and raises the key error |
| Store.MonitoringStore.UpdateProgress | tools/monitoring_store.py:335-350 | changes cursor and counters of one job and leaves its status, or fails before or after that; without such a job it changes nothing and raises the key error |
| HistoryManager.Manager.constructor | tools/history_manager.py:12-17 | a new manager has no worker and no active job |
| HistoryManager.Manager.Create | tools/history_manager.py:19-35 | refuses exactly requests that end before they start, span more than 366 days, or have chunks outside 300 seconds to 7 days or limits outside 1 to 2000 records, and changes nothing then; otherwise it is a create and, unless that fails, a resume of the new job; a job returned while no worker lived is new, queued, active and has a worker; with another worker alive the job is stored and the call is an error |
| HistoryManager.Manager.Start | tools/history_manager.py:54-65 | the locked part of resume is one step; a worker is started exactly when none lives and the write of the status works |
| HistoryManager.Manager.Resume | tools/history_manager.py:37-66 | unknown and complete jobs, and a failed lookup, leave the state unchanged; otherwise it is a lookup and a start; with another job's worker alive it is an error and changes no job; with no worker alive success means that only this job changed, to queued, and that a worker of it has started |
| HistoryManager.Manager.Cancel | tools/history_manager.py:68-75 | sets the flag exactly when the job is active, and the status unless the store fails first; otherwise changes nothing |
| HistoryManager.Manager.Stop | tools/history_manager.py:77-81 | sets the flag and changes nothing else |
| HistoryManager.Manager.Begin | tools/history_manager.py:84 | one worker step that marks the job running; if the write fails, stored or not, the thread dies |
| HistoryManager.Manager.InsertOne | tools/history_manager.py:104-110 | one insert is one worker step; it counts the record exactly when nothing fails and the record does not raise, as imported if a row was added and as a duplicate if not, and ends in the handler otherwise |
| HistoryManager.Manager.InsertChunk | tools/history_manager.py:99-110 | the inserts of a chunk are steps of this worker only and touch no job; without failure all records are received |
| HistoryManager.Manager.Fetch | tools/history_manager.py:90-98 | one worker step; the chunk is answered exactly when the device does not fail and has the range within its limits |
| HistoryManager.Manager.RunChunk | tools/history_manager.py:90-117 | one pass of the loop is steps of this worker only; it moves the cursor behind the chunk, or ends in the handler with the job where it was or behind the chunk, its status kept and no other job changed |
| HistoryManager.Manager.CommitChunk | tools/history_manager.py:111-117 | one worker step; cursor and counters are written together and the status is kept, or no job changes; a failure after the write leaves it written |
| HistoryManager.Manager.WriteEnd | tools/history_manager.py:87-118 | one worker step; the status becomes complete when the range is done and paused when cancelled, or no job changes; a failure after the write leads to the handler all the same |
| HistoryManager.Manager.HandleFailure | tools/history_manager.py:119-122 | one worker step; the job becomes paused unless the write fails before its effect, and the worker goes on to its finally block |
| HistoryManager.Manager.Leave | tools/history_manager.py:123-125 | two worker steps; no job is active afterwards, the thread is gone and no job has changed |
| HistoryManager.Manager.Run | tools/history_manager.py:83-125 | the worker always ends, and all it did is a run of the state machine made of its own steps only |
| Alerts.AlertTable.SetAlert | tools/monitoring_store.py:252-280 | updates the open row of its key, opens one, resolves it, or does nothing |
| Alerts.AlertTable.AcknowledgeAlert | tools/monitoring_store.py:292-298 | sets the mark of the row and nothing else if there is one, and reports that |
| Alerts.LifeCycle | tools/monitoring_store.py:252-298 | after any calls a key has at most one open row; it has one exactly when its last call was active; it has as many rows as edges from inactive to active |
| Alerts.OpenRowShowsLastCall | tools/monitoring_store.py:263-275 | an open row shows what the last call on its key reported |
| Alerts.ResolvedStays | tools/monitoring_store.py:276-298 | a resolved row never reopens or changes but for its acknowledgement; no row loses its key |
| Alerts.AcknowledgementsDoNotMatter | tools/monitoring_store.py:252-298 | after any calls the rows are, but for their marks, those of the same calls without the acknowledgements |
| Alerts.MarksAreAcknowledgements | tools/monitoring_store.py:292-298 | after any calls a row is marked exactly if one of them acknowledged it after it had been opened |
| Alerts.EvaluateSample | tools/alert_engine.py:11-41 | makes the seven calls of a sample in order, with their conditions and values |
| Alerts.EvaluateHealth | tools/alert_engine.py:44-51 | afterwards the low-battery alert of the node is open exactly when both values are there and the battery is at or below the threshold, whatever was open before; every other key is as before; an open one shows battery, threshold and time, and is critical if new |
| Alerts.EvaluateMissingData | tools/alert_engine.py:54-66 | nothing happens before a first sample; afterwards the missing-data alert of its node is open exactly when the rule is on and the latest sample is that old; every other key is as before; an open one shows age, limit and time, and is critical if new |
| Alerts.CallsOnOneKey | tools/monitoring_store.py:252-280 | after more calls a key is open as its last one among them says, or as before if there is none |
| Alerts.SampleDecidesItsRules | tools/alert_engine.py:11-41 | after a sample, whatever was open before: a tilt rule is open exactly if the axis is tilted, either way, by at least its limit; a rate rule exactly if time has passed and the change times 60 reaches the limit times the seconds; the error rule exactly if it is on and the code is not 0; every other key is as before |
| Alerts.SampleShows | tools/alert_engine.py:11-41 | an open row of a sample rule shows the size of the tilt, or the rate that times the minutes passed is the change, or the error code, with the limit and the time of the sample; a new row is critical for errors and a warning otherwise |
| ConfigDiff.DiffEmptyIffEqual | tools/config_backup.py:170-184 | on trees of any depth the diff is empty exactly when they are equal |
| ConfigDiff.EntriesAreReal | tools/config_backup.py:170-184 | every entry names a place where the trees differ and not merely further down, and shows both sides |
| ConfigDiff.DiffIsPrefixFree | tools/config_backup.py:170-184 | no entry's path, as a list of keys, extends another's |
| ConfigDiff.TextsApart | tools/config_backup.py:170-184 | with no dot in their keys, no entry's text repeats another's or extends it by a key |
| ConfigDiff.DotsCanCollide | tools/config_backup.py:174 | with a dot in a key, a diff can hold two entries for different places with the same text |
| ConfigDiff.DiffSwaps | tools/config_backup.py:170-184 | swapping the arguments swaps both sides of every entry and keeps the order |
| ConfigDiff.DiffersIsCovered | tools/config_backup.py:170-184 | wherever the trees differ some entry lies on the way there or beyond |
| ConfigDiff.DiffIsOrdered | tools/config_backup.py:173 | entries come in the order of their keys at every depth |
| ConfigDiff.LeqIff | tools/config_backup.py:173 | that order is the order of text: a prefix comes first, and otherwise the first letter that differs decides |
| RestorePlan.EncodableIff | tools/config_backup.py:139-159 | a field of a valid snapshot can be written, unless it is a slot time of 0 |
| RestorePlan.PlanExistsIff | tools/config_backup.py:193-248 | for any two snapshots, a plan exists exactly if both are valid, node, product, serial number and all three firmware fields agree, and the target does not want a slot time of 0 that is not there yet; and which error it is otherwise |
| RestorePlan.ValidValuesIff | tools/config_backup.py:117-134 | a valid configuration with other values in its three fields is valid exactly if each can be written, or is a slot time of 0 |
| RestorePlan.ValidDeviceIff | tools/config_backup.py:107-116 | an identity is valid exactly if a message header can carry its node and product and the firmware numbers are not negative |
| RestorePlan.PlansWhatDiffers | tools/config_backup.py:211-266 | the operations are the fields that differ, in the order sampling, channels, slot time, and the node to confirm is that of both snapshots |
| RestorePlan.RestorableIsTextPrefix | tools/config_backup.py:248-253 | below a configuration key, a change is not blocked exactly if its dotted text starts with that of one of the three fields |
| RestorePlan.BlockedAre | tools/config_backup.py:253 | the blocked changes are exactly the changes that fail that test |
| RestorePlan.OperationsAreReal | tools/config_backup.py:211-248 | every operation is a real difference and its body decodes to the target value behind any header start |
| RestorePlan.BlockedIff | tools/config_backup.py:250-256 | nothing is blocked exactly when the sides agree on all other fields and on all channel fields whose name does not start with "enabled", headers aside |
| RestorePlan.ReplacedIff | tools/config_backup.py:162-167 | writing the target's three values gives the target, headers aside, exactly when in addition the channel fields that only start like "enabled" agree |
| RestorePlan.CanApplyIff | tools/config_backup.py:193-266 | a plan can be applied exactly when the three values differ somewhere, all operations are validated and nothing differs where the text rule looks |
| RestorePlan.ReplayReachesTarget | tools/config_backup.py:211-248 | replaying the operations gives the target's three values |
| RestorePlan.PlanSuffices | tools/config_backup.py:193-266 | replaying an applicable plan leaves an empty diff to the target if and only if the channel fields that only start like "enabled" agree |
| RestorePlan.DecodedChannelsAgree | tools/packet_parser/messages.py:309-326 | they do agree whenever the channel fields are the decoder's own |
| RestorePlan.NamesakeSlipsThrough | tools/config_backup.py:250-256 | there are valid snapshots for which they do not: the plan can be applied and leaves a difference |
| Restore.DeviceService.WriteField | tools/device_service.py:265-275 | one write and its readback; good exactly when there is a body to write and nothing goes wrong, and then the field holds the value and nothing else has changed |
| Restore.DeviceService.WriteAll | tools/device_service.py:262-275 | one after another; succeeds exactly when nothing goes wrong; the fields not recorded are old if and only if no unacknowledged write took effect |
| Restore.DeviceService.Rollback | tools/device_service.py:280-297 | in reverse order; reports no error exactly when no step fails and every old value can be written, and then the old values are back |
| Restore.RollbackReportsWhatIsOff | tools/device_service.py:280-294 | for every schedule, a rollback that runs to its end reports exactly the fields that do not have their old values |
| Restore.DeviceService.TryRestore | tools/device_service.py:261-279 | the try block: succeeds if and only if no step goes wrong and no channel field that only starts like "enabled" differs, and then nothing differs from the target |
| Restore.FailedRestoreIsOldIff | tools/device_service.py:246-302 | for every schedule, a restore that fails and reports no rollback error leaves the old values unless the write on which it gave up was not acknowledged and left another value, and only then |
| Restore.DeviceService.ApplyRestore | tools/device_service.py:246-302 | refused exactly when not permitted, with nothing written; restored means no difference to the target; failed without rollback errors means the configuration is the old one if and only if no unacknowledged write took effect; a permitted restore succeeds if and only if no step goes wrong and no channel field that only starts like "enabled" differs; the writes sent are the plan's and then the old values in reverse; nothing is written unless writes are enabled, target and device are the same in all six fields, the node is confirmed and every field that differs is validated |
| Restore.StrayWriteStays | tools/device_service.py:265-268 | there is a run in which the first write takes effect unacknowledged: the restore fails, reports no rollback error and leaves the new value |
| Restore.FaultlessMatches | tools/device_service.py:276-279 | if all operations of an applicable plan are obeyed, the next truthful backup is valid, and does not differ from the target exactly when those channel fields agreed |
| Restore.PlainDeterminesValues | tools/config_backup.py:162-167 | a configuration stripped of headers still determines the three restorable values |
| Regional.EuropeGeneral | tools/radio_configuration.py:24 | the fixed general body spells MAC version 0, no 500 kHz channel, radio, ETSI and ADR on, spreading factor 11 and 14 dBm, and its receive window: spreading factor 12 at 1020000000 Hz, no flags, no slot time |
| Regional.OperationsAre | tools/radio_configuration.py:24-50 | the two writes of the profile, byte by byte |
| Regional.MatchIsFixedPoint | tools/radio_configuration.py:53-76 | a radio matches the profile exactly if obeying both writes would change none of the nine fields |
| Regional.MatchesIff | tools/radio_configuration.py:53-76 | a radio matches exactly if it has the nine values of the profile, the eight frequencies in Hz among them |
| Regional.ProfileIsWritten | tools/radio_configuration.py:53-76 | the two writes of the profile, obeyed by any device, leave no mismatch with it |
| Regional.GeneralIsRepeated | tools/radio_configuration.py:181-188 | repeating a general response, obeyed, gives its value back and leaves the channels alone |
| Regional.ChannelsAreRepeated | tools/radio_configuration.py:181-188 | the same for the channels |
| Regional.WriteVerified | tools/radio_configuration.py:191-201 | if it succeeds, the write was obeyed if and only if it was not a disobeyed acknowledged one; the other part of the radio is never touched |
| Regional.WriteAll | tools/radio_configuration.py:123-126 | every operation is recorded before it is sent, so a part that was not recorded is old |
| Regional.TryProfile | tools/radio_configuration.py:122-140 | the try block: success means the profile matches and the gateway fields are old; a device that makes no mistake succeeds |
| Regional.Rollback | tools/radio_configuration.py:142-150 | the undo bodies of the recorded operations are sent last first; if it succeeds, they have taken effect if and only if no acknowledged write was disobeyed, that is, if and only if the device obeyed each of them |
| Regional.UndoneIsOld | tools/radio_configuration.py:115-118 | whatever became of the recorded writes, obeying their undo bodies gives the old radio back |
| Regional.UndoneIff | tools/radio_configuration.py:142-150 | for every schedule, a rollback loop without an error ends in the radio that its bodies ask for if and only if every one of them was obeyed: a later obeyed write never makes up for a disobeyed one |
| Regional.FailedProfileIsOldIff | tools/radio_configuration.py:79-155 | for every schedule, a profile change that fails and reports no rollback error leaves the old radio if and only if nothing was recorded or the device obeyed every write of the rollback, whatever became of the writes before |
| Regional.ApplyRegionalProfile | tools/radio_configuration.py:79-155 | nothing is written unless permitted and needed; already configured means exactly that the radio has the nine values of the profile, and applied that it has them now and the four gateway fields are old; failed without a rollback error means that the recorded operations and then their undo bodies were sent, last first, and that both radio parts are old if and only if the device obeyed every write of the rollback; a device that makes no mistake ends up with the profile |
| Regional.RollbackCanBeIgnored | tools/radio_configuration.py:191-201 | there is a run in which the rollback reports no error and the radio is not the old one |

## Left out

- Serial ports, USB, udev and subprocesses: reads are lists of chunks or outcomes chosen freely.
- Web endpoints, tokens, HTML and JavaScript.
- Real time: deadlines are numbers of polls or the end of the input; `time.sleep`, `join(1)` in
  `resume` and the waiting part of `stop` are not modelled.
- `_read_transaction` and its reconnect counters, `run_query`, `wait_for` and the parsing inside
  `_write_and_ack`: an acknowledgement is an outcome of the device.
- Checks of `run_history` on its arguments and its request frame; per-record decoding: `Records`
  keep the inner body, and the import takes decoded records.
- SHA-1, SHA-256, JSON canonicalisation and the backup checksum: snapshots are taken as signed, and
  the two digests of `encode_embedded_auth` are parameters.
- Scaling to degrees, volts and g in decoders: fields stay raw integers. The alert rules use real
  numbers without rounding.
- SQLite: tables are maps and sequences with the declared unique keys, job IDs are positions;
  `received_utc`, `source`, clean-up by age, and inserts by the live monitor during an import.
- `node_id` and `error` of a history job.
- Decoders of calibration, Bluetooth, node information, addresses, AM 0x9B channels and stored
  intervals: fixed layouts like the ones modelled.
- Stale or delayed XMODEM acknowledgements: the sender reads one reply per packet and cannot tell
  which packet it answers, so the link delivers no old replies.
- Xmodem.SendBlock: takes a deadline of at least two polls, as `SendEnd` and `SendXmodem` do, one to
  read a reply and one to hand it over; a deadline in between would leave the reply behind for the
  next packet, which is the stale reply excluded above.
- XMODEM progress callback and `flash_g6_til90`, factory reset, reboot and recovery scripts, and
  `restore_after_factory_reset`: sequences of steps around the parts modelled.
- HistoryDevice.RecoveredIsAnswer: is about messages sent without noise in one stream that arrives
  in time; with noise the byte limit would depend on where the stream is cut, and a slow stream
  could reach the 40 seconds.
- What a device may select by: `CompleteAgrees` and `SoleJobAgrees` take it that a record with a
  timestamp is selected by that timestamp (`LogDated`). The other theorems about the import hold for
  any selection.
- Python's equality of `True` and `1` in the diff: values of different kinds differ here.
- Framing.StreamFrameParser.constructor: takes a positive limit; the value error for other limits is
  stated by `DecodeFrame`.
- HistoryManager.Manager.Run: other clients do not act between its steps in the method itself; the
  state machine, of which it is shown to be a run, interleaves them freely.
- Regional.ApplyRegionalProfile: other profile names are refused; the registry file is a constant.
