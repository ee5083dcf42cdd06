# PipeX in Dafny

PipeX moves bytes through plugin pipelines. Its hard parts are byte-stream state machines
that must give one answer however the transport cuts the bytes, and protocols that account
for work still running after its caller has gone. This project models four of them and two
smaller ones, and proves what they promise.

- **MessagePack frame scanner.** The nested grammar of one value (`MessagePackGrammar`) and
  what it says of every format (`MessagePackFormats`), the flat counter machine that recognises
  it byte by byte (`ScannerMachine`), the equivalence of the two with exact frame boundaries
  and early rejection (`FrameRecognition`), the scanner class with its bulk payload steps
  (`FrameScanner`), and the frame-limit check and transform (`FrameLimits`).
- **PXAE authenticated frames.** The format and what it means to write and read it
  (`EncryptionFormat`), the laws of the codec (`EncryptionLaws`), its bytes and the inputs
  accepted (`PacketLayout`, `VerifiedFrames`), and its four implementations: buffer writer and
  reader (`EncryptionBuffer`), stream writer (`EncryptionStream`), stream reader
  (`DecryptionStream`). AEAD and HKDF are values with the interfaces of section 2 of RFC 5116
  and section 2 of RFC 5869; `ManyMessages` extends framing completeness to a key that sealed
  any number of messages, and `IdealAead` shows that the idealised AEAD assumed for it exists.
- **PXWK worker streams and the worker pool.** The record format (`WorkerFormat`), its bytes
  and the inputs accepted (`WorkerRecords`), the encoder (`WorkerStream`), the decoder
  (`WorkerDecoder`), and bounded admission with draining close (`WorkerPool`).
- **Request capacity.** The engine's slots (`DataEngine`) and answers (`EngineHistory`),
  waiting under an abort signal and a deadline (`Operations`), retries (`Retry`), all requests
  interleaved over one engine (`RequestProtocol`), each of their steps as a run of the retry
  loop (`RequestLoops`), how a stopped request comes to its end (`RequestCompletion`), and the
  plugin fold of `run` and `undo` (`BinaryController`).
- **Key-service envelope and file session.** `KmsEnvelope`, `KmsKeys`, `SecureFiles`.

Each stateful object is a class with the source's fields whose methods are proved equal to a
step of a specification function (`Step`, `Walk`, `Next`, `React`); the promises are lemmas
about that function over every input or every run, and the lemmas named `…Exactly`, `…Are` or
`…Exact` say in bytes, numbers and history what the specification functions compute. `None` and
`false` stand for a thrown error. Randomness (salts, IVs, request ids), clocks and results of
native or provider calls are parameters or events.

## One disagreement between the two readers

The documentation gives `allowLegacyDecrypt` two defaults (docs/security.md:22 says disabled,
docs/api.md:374 says enabled) and the code has both: the buffer reader reads legacy messages
only when the option is `true` (src/plugin/encryptionFormat.ts:243), the stream reader unless
it is `false` (line 461). The model follows the code. `DecryptionStream.ReadersAgree` gives
the exact condition on the reader under which the two agree on all inputs, and
`DecryptionStream.ReadersDiffer` the messages on which they otherwise do not.

## Model

| member | source | states |
|---|---|---|
| `MessagePackGrammar.GrammarIsFlat` | src/core/frameLimits.ts:134-183 | the nested grammar of n values and a flat count of values still owed describe the same byte strings, both directions |
| `MessagePackFormats.ValuesInOrder` | src/core/frameLimits.ts:82-88 | no values are the empty string; n + 1 values are one value followed by n values |
| `MessagePackFormats.OneByteValues` | src/core/frameLimits.ts:144-147 | a fixint, nil, false or true is its one byte and nothing more; nothing starts with 0xc1 |
| `MessagePackFormats.NumberValues` | src/core/frameLimits.ts:159-168 | for each float and integer byte, exactly 1, 2, 4 or 8 bytes follow |
| `MessagePackFormats.StringValues` | src/core/frameLimits.ts:150-176 | for each string and binary byte, exactly as many bytes follow as its short or 1-, 2- or 4-byte length says |
| `MessagePackFormats.ArrayValues` | src/core/frameLimits.ts:149-178 | an array byte, short or with a length, is followed by exactly that many values |
| `MessagePackFormats.MapValues` | src/core/frameLimits.ts:148-180 | a map byte likewise by twice as many |
| `MessagePackFormats.FixedExtensionValues` | src/core/frameLimits.ts:169-173 | the extensions of 1, 2, 4, 8 and 16 bytes: a type, the payload, and what that type wraps |
| `MessagePackFormats.SizedExtensionValues` | src/core/frameLimits.ts:156-158 | the extensions with a length of 1, 2 or 4 bytes likewise |
| `MessagePackFormats.WrapsIs` | src/core/frameLimits.ts:44-56 | types 0x65, 0x73 and 0x78 wrap one value, types 0x00, 0x42, 0x74 and 0xff none, and every other type is refused |
| `ScannerMachine.ScanKeepsInv` | src/core/frameLimits.ts:57-141 | after every accepted buffer the scanner is in a state that satisfies the reservation invariant: owed bytes fit the budget, headers have at most four digits, a token always has a value to account for |
| `ScannerMachine.ReservationHolds` | src/core/frameLimits.ts:57-89 | outside an open length header frameBytes + payloadBytes + remainingValues is at most maxFrameBytes, so neither the size check inside a payload nor the negative-count check can fire |
| `ScannerMachine.ScanConcat` | src/core/frameLimits.ts:32-92 | scanning a and then b equals scanning their concatenation: same state, boundaries of b shifted by the length of a, refused if and only if a is refused or b is refused after it |
| `ScannerMachine.AdvanceRest` | src/core/frameLimits.ts:36-88 | what may still complete the frame after one more byte is exactly what may complete it before, with that byte in front: the counters mean a residual language of the grammar |
| `FrameRecognition.ExactRecognition` | src/core/frameLimits.ts:32-204 | scan and finish succeed if and only if the input is a concatenation of at most maxFrames grammar values, as the rows above determine them, of at most maxFrameBytes bytes each |
| `FrameRecognition.FramesScan` | src/core/frameLimits.ts:185-195 | on such an input the boundaries returned are exactly the cumulative ends of the frames |
| `FrameRecognition.UniqueFraming` | src/core/frameLimits.ts:32-92 | an input is cut into legal frames in at most one way |
| `FrameRecognition.ViablePrefix` | src/core/frameLimits.ts:105-110 | an accepted prefix has an accepted completion if and only if no frame is open, or maxFrames allows one more and the fewest bytes the open frame can have, counted from the scanner's own fields and with missing length digits taken as zero, fit maxFrameBytes |
| `FrameRecognition.ReservationIsEnough` | src/core/frameLimits.ts:105-110 | outside an open length header, with a frame still allowed, the byte limit is never what an accepted prefix fails on later |
| `FrameRecognition.RejectionIsFinal` | src/core/frameLimits.ts:105-110 | early rejection is never too early: no continuation of a refused prefix is a legal framing |
| `FrameScanner.PayloadScan` | src/core/frameLimits.ts:58-64 | taking payload bytes in bulk gives the state and boundaries that taking them one by one gives |
| `FrameScanner.MessagePackFrameScanner.ReadToken` | src/core/frameLimits.ts:143-183 | accepts a token exactly when the format table announces something within the budget, and then reaches the announced state |
| `FrameScanner.MessagePackFrameScanner.PayloadBytes` | src/core/frameLimits.ts:58-64 | one bulk step equals the byte machine on those bytes; its two size checks are proved dead |
| `FrameScanner.MessagePackFrameScanner.Scan` | src/core/frameLimits.ts:32-92 | the loop over mutable fields equals the byte machine on the chunk, boundaries included, and keeps the invariant |
| `FrameLimits.AssertMessagePackFrameLimits` | src/core/frameLimits.ts:206-217 | succeeds exactly on legal framings and returns their number of frames |
| `FrameLimits.FrameLimitTransform.Transform` | src/core/frameLimits.ts:225-250 | after every chunk each push is one legal frame, pushes and held bytes are the input, and the held bytes are as many as the scanner counts, within the frame limit |
| `FrameLimits.RunFrameLimit` | src/core/frameLimits.ts:219-260 | for every chunking the transform completes exactly on legal framings and its pushes are the frames |
| `EncryptionLaws.HeaderRoundTrip` | src/plugin/encryptionFormat.ts:94-117 | a built header parses back to its algorithm, frame size and salt |
| `EncryptionLaws.FrameHeaderFromFields` | src/plugin/encryptionFormat.ts:133-139 | a frame header is determined by its type, sequence and length |
| `EncryptionLaws.NoncesDistinct` | src/plugin/encryptionFormat.ts:124-131 | different sequence numbers below 2^64 have different nonces |
| `EncryptionLaws.CountMonotone` | src/plugin/encryptionFormat.ts:85-92 | frame count and encoded length grow with the input, so checking them early refuses only what would be refused later |
| `EncryptionLaws.PacketLength` | src/plugin/encryptionFormat.ts:85-92 | header and frames of a message sum to exactly the declared length, so joining them neither cuts nor fills |
| `PacketLayout.HeaderParses` | src/plugin/encryptionFormat.ts:105-117 | the headers accepted, byte by byte, and their fields |
| `PacketLayout.EncryptsExactly` | src/plugin/encryptionFormat.ts:70-92 | a message is encrypted if and only if the key has 32 bytes, the frame size (the one requested, else the smaller of 64 KiB and what a frame can hold) is legal, and data, frames and packet are within the limits |
| `PacketLayout.PacketIs` | src/plugin/encryptionFormat.ts:94-234 | the bytes of the packet: the header with the frame size and salt, full data frames and a rest, the final frame, each with its own header, number, nonce and authenticated data under the derived key |
| `PacketLayout.ReadsExactly` | src/plugin/encryptionFormat.ts:236-297 | a reader with the writer's key under any limits of its own restores the message if and only if packet, number of frames, frame size and data are within them |
| `VerifiedFrames.SessionOf` | src/plugin/encryptionFormat.ts:105-122 | which headers open a session for a reader, and the algorithm, frame size, salt and derived key of that session |
| `VerifiedFrames.AcceptsExactly` | src/plugin/encryptionFormat.ts:249-297 | whatever the AEAD, a framed input is accepted if and only if it is a header and frames that verify one by one under their own numbers and within the reader's limits, and it yields their plaintexts |
| `VerifiedFrames.ReadsAs` | src/plugin/encryptionFormat.ts:187-246 | key length and input limit, the choice between framed and legacy by the first byte, and the fields and limits of a legacy message |
| `EncryptionLaws.WalkConcat` | src/plugin/encryptionFormat.ts:256-286 | reading the frames of a and then of what follows equals reading the concatenation, from every intermediate state |
| `EncryptionLaws.WalkWritten` | src/plugin/encryptionFormat.ts:256-286 | reading a writer's frames from the i-th on passes every check and yields the chunks from the i-th on |
| `EncryptionLaws.RoundTrip` | src/plugin/encryptionFormat.ts:210-297 | under one set of limits and one key, every message that encrypts decrypts to the original data, empty data and exact multiples of the frame size included |
| `EncryptionLaws.OnlyThePacket` | src/plugin/encryptionFormat.ts:236-297 | when only one message was sealed, no reader under any key, limits or legacy setting accepts any byte string but its packet |
| `EncryptionLaws.ExactlyThePacket` | src/plugin/encryptionFormat.ts:236-297 | with the writer's key and limits the packet yields the data and every other byte string is refused |
| `IdealAead.IdealAeadExists` | src/plugin/encryptionFormat.ts:141-185 | for every message that encrypts there is an AEAD with the same sealing function that meets the assumptions of the two rows above |
| `IdealAead.LawsCanBeMet` | src/plugin/encryptionFormat.ts:141-185 | the laws assumed of the AEAD, that it opens what it sealed and keeps lengths, can be met together |
| `ManyMessages.OnlyThePackets` | src/plugin/encryptionFormat.ts:236-297 | when all that opens under keys derived from the reader's own are frames of messages with different headers, every framed input the reader accepts is one of the packets: no splicing, reordering or cutting across messages |
| `ManyMessages.ExactlyThePackets` | src/plugin/encryptionFormat.ts:236-297 | with the writers' key and limits each packet yields its own message, and of all other inputs that do not look legacy none is accepted |
| `ManyMessages.IdealForAllExists` | src/plugin/encryptionFormat.ts:141-185 | for any messages sealed under different headers there is an AEAD with the same sealing function that meets the assumptions of the two rows above for every key |
| `EncryptionBuffer.EncryptBuffer` | src/plugin/encryptionFormat.ts:210-234 | the offset loop and the joined buffer equal the packet of the format, and fail exactly when a limit or the key is wrong |
| `EncryptionBuffer.OpenAll` | src/plugin/encryptionFormat.ts:249-288 | the position loop over the frames equals the recursive reading of them |
| `EncryptionBuffer.DecryptBuffer` | src/plugin/encryptionFormat.ts:236-297 | equals the reader's specification, with legacy messages allowed only by an explicit true |
| `EncryptionStream.EncryptionTransform.Take` | src/plugin/encryptionFormat.ts:328-339 | one turn of the copy loop seals a full buffer as the next frame; its frame-count check is proved unreachable |
| `EncryptionStream.EncryptionTransform.Transform` | src/plugin/encryptionFormat.ts:316-345 | accepts a chunk exactly when the bytes so far are within the writer's limits, and only adds to what was pushed |
| `EncryptionStream.RunEncryption` | src/plugin/encryptionFormat.ts:299-363 | for every chunking the stream writer succeeds exactly when the buffer writer does and emits the same bytes |
| `DecryptionStream.DecryptionTransform.ConsumeFramed` | src/plugin/encryptionFormat.ts:391-450 | the loop over the header, frame-header and body buffers accepts exactly the framed prefixes in which nothing is refused, and has then pushed exactly the verified frames, across every chunk boundary |
| `DecryptionStream.DecryptionTransform.Transform` | src/plugin/encryptionFormat.ts:453-470 | accepts a chunk exactly when nothing in the bytes so far is refused; what is pushed is at every point the verified data frames so far, also when the chunk is refused |
| `DecryptionStream.DecryptionTransform.Flush` | src/plugin/encryptionFormat.ts:471-487 | completes exactly when the whole input decrypts, with the same plaintext |
| `DecryptionStream.RunDecryption` | src/plugin/encryptionFormat.ts:365-490 | for every chunking, empty chunks included, the stream reader succeeds exactly when the whole-buffer reading does and pushes the same plaintext |
| `DecryptionStream.ReadersAgree` | src/plugin/encryptionFormat.ts:242-245 | for every lawful AEAD, stream and buffer reader give the same result on every input if and only if the legacy option is given, or the key is refused, or the input limit is below a legacy header |
| `DecryptionStream.FramedReadAlike` | src/plugin/encryptionFormat.ts:459-464 | they agree on an input whenever the option is given or its first byte is that of the magic word |
| `DecryptionStream.ReadersDiffer` | src/plugin/encryptionFormat.ts:459-462 | with the option omitted they differ on every legacy packet sealed under the reader's key and within the limits: the stream reader restores it, the buffer reader refuses it |
| `DecryptionStream.LegacyPacketReads` | src/plugin/encryptionFormat.ts:187-204 | such a packet is restored wherever legacy messages are allowed and refused elsewhere |
| `WorkerFormat.NoLengthIsTheEnd` | src/plugin/worker.ts:217-219 | no length a writer or reader admits is encoded as the end marker |
| `WorkerRecords.PiecesAre` | src/plugin/worker.ts:257-258 | every chunk is cut by itself into full pieces and a rest |
| `WorkerRecords.EncodesExactly` | src/plugin/worker.ts:211-265 | encoding succeeds if and only if input, number of pieces, outputs and wire are within the limits and every task succeeds, and writes a length and an output for every piece of the smaller of maxFrameBytes and 0xffff_fffe bytes |
| `WorkerRecords.OneRecord` | src/plugin/worker.ts:255-264 | a chunk no larger than a frame is one task and one record |
| `WorkerRecords.DecodesExactly` | src/plugin/worker.ts:266-317 | wire bytes are accepted if and only if they are the magic word, records up to that size whose tasks succeed within the limits, and the end marker, and they yield the outputs of the tasks |
| `WorkerFormat.WalkConcat` | src/plugin/worker.ts:267-298 | decoding a and then what follows equals decoding the concatenation |
| `WorkerFormat.RoundTrip` | src/plugin/worker.ts:211-317 | for inverse tasks under the same limits, the wire bytes decode to the input exactly when it fits the output limit, and are refused otherwise |
| `WorkerStream.RunEncode` | src/plugin/worker.ts:255-265 | the encoder succeeds exactly when every task and limit allows it and emits the wire bytes of its chunks |
| `WorkerDecoder.DecodeTransform.Transform` | src/plugin/worker.ts:266-299 | accepts a chunk exactly when nothing in the wire bytes so far is refused |
| `WorkerDecoder.RunDecode` | src/plugin/worker.ts:248-317 | for every chunking of the wire the decoder terminates, zero-length records included, and equals the whole-buffer decoding |
| `WorkerDecoder.Transport` | src/plugin/worker.ts:211-317 | encode in one chunking, cut the wire anywhere, decode: the input comes back exactly when it fits the output limit |
| `WorkerPool.PoolSafety` | src/plugin/worker.ts:153-200 | over all runs inFlight is the number of accepted unsettled tasks and at most threads plus queue; idle waiters exist only while it is positive; a gracefully closed pool has settled every accepted task |
| `WorkerPool.NoneAcceptedAfterClose` | src/plugin/worker.ts:320-354 | once a close has begun or a fatal error struck, no task is ever accepted again, and a graceful close stays one |
| `WorkerPool.CloseCompletes` | src/plugin/worker.ts:326-343 | from every waiting close no fatal error has struck, the open tasks settling in any order, one resume and the pool's own close are possible and end it gracefully: as many events as tasks are open, and two |
| `WorkerPool.AdmissionIsExact` | src/plugin/worker.ts:153-200 | in every reachable pool a task is accepted if and only if no close was called, no fatal error struck, input and timeout are valid, and fewer tasks than threads and queue hold are unsettled |
| `WorkerPool.ClosingIsExact` | src/plugin/worker.ts:320-354 | which way a close call takes, and how the answers of the underlying pool, a timeout or a fatal error end it |
| `WorkerPool.WorkerPoolPlugin.Submit` | src/plugin/worker.ts:153-163 | admission of a task, with the check order of the source, is a step of the pool protocol |
| `WorkerPool.WorkerPoolPlugin.Settle` | src/plugin/worker.ts:192-200 | the finally block of a task, waking idle waiters at zero, is a step of the pool protocol |
| `WorkerPool.WorkerPoolPlugin.Close` | src/plugin/worker.ts:320-340 | the synchronous start of close is a step of the pool protocol, and only the first call has an effect |
| `DataEngine.CapacityIsExact` | src/core/dataEngine.ts:340-376 | over every interleaving a request holds its slot exactly until the later of its first release and the settlement of its last tracked promise; slots never exceed the limit; finished requests are active with work pending; snapshots are kept for exactly the active requests |
| `EngineHistory.AnswersAreExact` | src/core/dataEngine.ts:126-350 | over every interleaving a start succeeds if and only if fewer slots are held than the limit set last; limits and plugins change if and only if none is held, to legal limits and up to 256 plugins |
| `EngineHistory.ConfigurationFollows` | src/core/dataEngine.ts:146-154 | the engine runs the plugins registered, in that order, under the limits set last |
| `EngineHistory.AcceptedLimits` | src/core/dataEngine.ts:126-141 | the accepted limits in numbers |
| `DataEngine.ConfigurationStable` | src/core/dataEngine.ts:146-154 | between any two points at which a request is active, the plugin list and every limit are the same |
| `DataEngine.ValidateLimits` | src/core/dataEngine.ts:126-141 | the limit checks accept exactly the limits that are safe integers, positive where they must be, and within the timer and key-length ranges |
| `DataEngine.AuditReportsExecutedChain` | src/core/dataEngine.ts:239-248 | in every reachable state the chain an active request's audit reports is the plugin list the engine executes |
| `DataEngine.DataEngine.TrackWork` | src/core/dataEngine.ts:353-365 | tracking a promise, in a set shared with its callback, is a step of the capacity protocol; the callback's set is the one the engine consults |
| `DataEngine.DataEngine.OnSettled` | src/core/dataEngine.ts:357-363 | the callback of a settled promise, through the set it captured, is a step of the capacity protocol and frees the slot of a finished request |
| `DataEngine.DataEngine.ReleaseRequest` | src/core/dataEngine.ts:368-376 | a release, first or repeated, is a step of the capacity protocol |
| `DataEngine.DataEngine.StartRequest` | src/core/dataEngine.ts:340-350 | a start is refused exactly at the limit and otherwise takes a slot and a chain snapshot |
| `Operations.OutcomeIsExact` | src/core/operations.ts:24-61 | a wait resolves with a value if and only if the operation fulfilled with it before any abort and before the deadline, and fails by itself if and only if it rejected before abort and timer |
| `Operations.OutcomeInTimes` | src/core/operations.ts:15-61 | the same by times alone: a deadline stops from its own millisecond on |
| `Operations.EndsOnce` | src/core/operations.ts:39-44 | once a wait has ended nothing that happens later changes its outcome |
| `Operations.NothingLeaks` | src/core/operations.ts:35-50 | an ended wait holds neither listener nor timer, an open one holds the listener, and the timer exactly when there is a deadline |
| `Operations.InterruptedStaysStopped` | src/core/operations.ts:15-21 | after an interrupted wait the signal still stops at every later time, so the caller's own check throws too |
| `Operations.AwaitOperation.OnFulfilled` | src/core/operations.ts:52-58 | the result callback discards late results and looks at the signal again before it resolves |
| `Retry.WithRetry` | src/core/core.ts:48-91 | calls follow one another until the first success, the first stop or the last attempt, whose error is reported; the operation of every earlier attempt rejected by itself; pauses are the ones due; pauses are the delay asked for, repeated, or doubled up to the limit; options are refused exactly outside their ranges; the result is the one `Looped`, the loop the row on `RequestLoops` speaks of, comes to on the same rounds |
| `Retry.RoundsAreSound` | src/core/core.ts:69-71 | an attempt whose wait was interrupted finds the signal stopped when the error is caught, which is what the row above assumes of an attempt |
| `Retry.PausesGrow` | src/core/core.ts:74-76 | pauses never shrink, never exceed the limit and are never shorter than the configured delay |
| `Retry.PausesAre` | src/core/core.ts:74-79 | the first pause is the delay, a fixed one stays, an exponential one is the smaller of twice the one before and the limit |
| `RequestProtocol.AttemptsNeverOverlap` | src/core/core.ts:66-91 | over all runs, a step that adds to the plugin calls is an attempt of a request that holds a slot, has no promise unsettled, is neither aborted nor past its deadline, and has attempts left: attempt i + 1 starts only after attempt i has settled |
| `RequestProtocol.RaceEnds` | src/core/operations.ts:24-61 | a wait of a request ends with its promise settled, or interrupted with the signal stopped at every later time |
| `RequestProtocol.FailureKeepsInv` | src/core/core.ts:70-87 | the catch block, run at any time after the wait ended: because it looks at the signal again, it retries only when nothing is outstanding |
| `RequestProtocol.BackgroundWorkIsBounded` | src/core/dataEngine.ts:353-376 | over all runs the unsettled promises of all requests are at most as many as the active requests, and these at most the limit |
| `RequestProtocol.SlotsFollowWork` | src/core/controllers/BinaryController.ts:86-135 | a slot is taken exactly while the request runs or a promise of it is unsettled, also after its caller has timed out |
| `RequestProtocol.AttemptsAreBounded` | src/core/core.ts:66-70 | over all runs and however waits end, the plugin calls of a step and those still possible are at most its attempts |
| `RequestProtocol.NoCallAfterStop` | src/core/core.ts:67-71 | once a request's signal is aborted or its deadline passed, none of its plugins is ever called again |
| `RequestLoops.StepsAreRetryLoops` | src/core/core.ts:48-91 | over all runs of all requests, interleaved, a step under way stands where the retry loop stands after the step's rounds, with one plugin call a round; the round an event completes is what its wait came to and what the catch block then sees of the signal (or the stop seen before the call, the error thrown, the end of the pause), and the request goes exactly where the loop goes with that round: to the pause or attempt due, to the next step on a usable success, or to its end, which is good only after a usable last success with no stop seen |
| `RequestLoops.BeginsExactly` | src/core/controllers/BinaryController.ts:78-87 | a request begins if and only if its signal has not stopped and a slot is free, with its steps and the engine's retry limits |
| `RequestCompletion.StopCompletes` | src/core/core.ts:67-87 | in every reachable world a request whose signal has stopped comes to its end within at most two turns of its own code or timer, which are possible, call no plugin and wait for none |
| `RequestCompletion.StopProgresses` | src/core/core.ts:67-87 | over every interleaving no event adds to the turns such a request owes, each turn pays one, and as long as it is not done a turn is due |
| `BinaryController.UndoInvertsRun` | src/core/controllers/BinaryController.ts:93-211 | for lawful plugins undo of what run produced yields the initial buffer if and only if every plugin is reversible, the result is within the input limit and the initial buffer within the output limit; otherwise it fails |
| `BinaryController.RunsExactly` | src/core/controllers/BinaryController.ts:93-116 | the fold succeeds with exactly what a chain of plugin outputs ends with, each made of the one before and within the limit, and the input within its limits and one MessagePack value where it has to be |
| `BinaryController.UndoesExactly` | src/core/controllers/BinaryController.ts:180-217 | the inverse fold likewise over the reverse steps, with every plugin reversible |
| `BinaryController.ProcessAll` | src/core/controllers/BinaryController.ts:99-115 | the plugin loop equals the fold with its size checks and reports the finished plugins in order; it ends at the first call that is not answered if it gets there, whatever later plugins would do, with that call's promise tracked when the call was given up on and nothing outstanding when the stop was seen without one |
| `BinaryController.ReverseAll` | src/core/controllers/BinaryController.ts:196-210 | the reverse loop equals the fold from the last plugin to the first, with the same bookkeeping |
| `BinaryController.FindIrreversible` | src/core/core.ts:170-173 | finds the first irreversible plugin, and none exactly when the pipeline is reversible |
| `BinaryController.Run` | src/core/controllers/BinaryController.ts:78-136 | when every call is answered and no stop seen, run equals the checked fold; once it has its slot and a fitting input it halts at exactly the first plugin call it comes to, audit record or last check that is not; it leaves the engine as it found it, unless the caller gave up on that call, whose one promise then keeps the slot |
| `BinaryController.Undo` | src/core/controllers/BinaryController.ts:177-230 | undo likewise with the checked inverse fold and the checks before and behind its audit record; with an irreversible plugin or an input too large no reverse step runs and the engine is untouched |
| `BinaryController.HeldUntilSettled` | src/core/dataEngine.ts:357-363 | the slot a given-up call holds is free again, and the engine as before the request, when its promise settles |
| `KmsEnvelope.FramedInputsAreEnvelopes` | src/plugin/kms_encryption.ts:235-252 | a byte string parses to an envelope if and only if it is that envelope's serialisation and the envelope is within the limits |
| `KmsEnvelope.ProcessesExactly` | src/plugin/kms_encryption.ts:157-209 | a message is processed if and only if it, its keys and the packet are within their limits; the packet byte by byte, and what of it is authenticated |
| `KmsEnvelope.ReversesExactly` | src/plugin/kms_encryption.ts:211-291 | which inputs are framed and which legacy envelopes, by their bytes and limits; what is opened of each, with which key and authenticated data; every other input is refused |
| `KmsEnvelope.RoundTrip` | src/plugin/kms_encryption.ts:157-291 | under one set of limits every processed message has the declared length and is restored, whatever the legacy setting |
| `KmsEnvelope.Process` | src/plugin/kms_encryption.ts:157-209 | the checks, the header filled in place and the joined parts equal the serialised envelope of the format |
| `KmsKeys.EveryKeyIsWipedOnce` | src/plugin/kms_encryption.ts:37-70 | whatever the order of abort and answer, a yielded key is in use by the plugin that will wipe it or has been wiped exactly once, by late disposal or by the finally block and never by both |
| `KmsKeys.GivenUpStaysGivenUp` | src/plugin/kms_encryption.ts:49-63 | a caller that gave up is never handed a key |
| `KmsKeys.AnswersInTime` | src/plugin/kms_encryption.ts:37-70 | the caller gets the key if and only if it is yielded before any abort, and an error likewise |
| `KmsKeys.Abortable.OnValue` | src/plugin/kms_encryption.ts:56-63 | a late key buffer is zeroed in place, one in time handed over untouched |
| `SecureFiles.SessionSafety` | src/core/secureFiles.ts:301-357 | over every interleaving, closed descriptors mean no native I/O is outstanding; at most one rename happens, and the temporary file is removed exactly when none did; the file holds the written chunks in order and then part of at most one more |
| `SecureFiles.HistoryDecides` | src/core/secureFiles.ts:301-357 | over every interleaving a session is committed if and only if a rename succeeded before any dispose, and disposed, closed and its streams destroyed exactly by what was done to it or failed |
| `SecureFiles.NativeCalls` | src/core/secureFiles.ts:301-340 | at most one native call for each side, each new call its own task; reads, writes and returns touch only their side, and a write adds to the file the bytes it reports |
| `SecureFiles.NothingStartsAfterDispose` | src/core/secureFiles.ts:348-356 | from dispose on no native call starts and nothing is renamed, and closing is final |
| `SecureFiles.WriteLoopProgresses` | src/core/secureFiles.ts:328-338 | a short write goes on from where it ended, a write without progress or after disposal fails, and success is called back exactly when the whole chunk is in the file |
| `SecureFiles.DisposeCompletes` | src/core/secureFiles.ts:348-356 | from every disposed open session, whatever the outstanding native calls report, their returns and at most one resume of the writer lead to the cleanup that closes the descriptors |
| `SecureFiles.DisposeProgresses` | src/core/secureFiles.ts:352-355 | after dispose every return and resume pays one of finitely many owed, nothing adds to them, and cleanup can run exactly when none is owed |
| `SecureFiles.PosixSession.Commit` | src/core/secureFiles.ts:343-347 | a commit succeeds at most once and never after dispose |
| `SecureFiles.PosixSession.ResumeWriter` | src/core/secureFiles.ts:330-335 | the write loop after a native write is a step of the session protocol |

## Left out

- Real cryptography: AES-GCM, ChaCha20-Poly1305 and HKDF are abstract functions with stated laws.
- Compression, hashing, MessagePack encoding and decoding of values, value conversion to and from buffers, Zod validation: libraries or value-level code around the byte machines.
- Node streams beyond a sequence of transform calls followed by flush: no backpressure, no pipelines, no destroy callbacks; abort signals and destruction inside worker streams are not modelled.
- Fields after a refusal: the source's transforms and scanner are not used after they throw, and the model says nothing of what their fields hold then, except that the stream reader has pushed only verified frames.
- Error classes and messages: a refusal is `None` or `false`, and the buffer and stream paths may name different errors.
- Buffer zeroing in PXAE; key wiping is modelled for the key service only.
- Floating point in `Math.ceil` and `Math.pow`: counts and pauses are exact integers.
- Waiting without a signal: a wait with no abort signal is the operation's own promise.
- Microtask order: a promise's settlement, the engine's callback and what the wait hears of it are one event in `RequestProtocol`, the code after the wait another; native completion and the writer's continuation are two events in `SecureFiles`.
- Progress and audit side effects, logging, tracing, event listeners: they change no modelled state.
- The manifest path of `undo` for raw buffers without plugins, and decoding of the restored buffer beyond its frame check.
- `RequestProtocol` gives the audit record retry options like a plugin's; the source makes one attempt at it, which is the case `attempts == 1`.
- `BinaryController.Undo`: the two abort checks around the frame check of the restored buffer (src/core/controllers/BinaryController.ts:212-215) are one check in the model; nothing is awaited between them. A stop seen on entry ends like one before the first call.
- `BinaryController.Run`: one plugin call stands for the whole retried call, which `Retry` and `RequestProtocol` model; the plugin's answer is a function of its input.
- `DataEngine.DataEngine.SetLimits`: takes the merged limits; the merging of a partial record is not modelled.
- Tracking a promise twice or on a request that is not active is outside `DataEngine.CapacityIsExact`; the controllers track fresh promises of active requests.
- Timers are assumed not to fire before their deadline.
- Piscina: a task is accepted and settles at some time; pool closing and destruction succeed or fail. Admission of the tasks of a worker stream to the pool is not part of `WorkerFormat`.
- `KmsEnvelope.Reversed`: no round trip is claimed for the legacy envelope, because nothing writes it any more.
- The Windows file session, path containment, opening of descriptors, and the bytes delivered by the reading side.
- The PXKM provider capabilities and timers beyond an abort that may come at any time.
- The chain of stream transforms and its byte-count and object-count limits: simple counters.
