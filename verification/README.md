# The RFC 6455 framing engine, verified

A Dafny model of the uncompressed WebSocket engine of this repository: the incremental frame reader, the fragmenting
writer under its two mutexes, the word-at-a-time masker, the close handshake between two endpoints and the parser of
extension headers. `dafny verify dfyconfig.toml` checks everything.

## How the model is built

| file | what it holds |
|---|---|
| `Bytes.dfy` | bytes (`bv8`), big-endian words and sizes, and their round trips |
| `Masking.dfy` | byte-wise masking and the class `Masker`, which masks by 32-bit words where memory is aligned |
| `Frames.dfy` | the two-stage header read, the header encoder that fills a fresh buffer, and their agreement |
| `Decoder.dfy`, `Chunking.dfy` | the reader as a pure machine over its unread bytes; cuttings of the input do not matter |
| `Reader.dfy` | the class `ProtocolReader`: chunk queue, read position, scratch buffer, unmasking in place in shared memory; `Transform` is proved to do what the pure machine does |
| `WireFormat.dfy`, `CodeRules.dfy` | frames and close codes number by number: which bytes stand where, which codes are read and sent |
| `CloseCodes.dfy` | a reader whose close-code check is switched off between two chunks |
| `Reference.dfy`, `Legality.dfy` | an independent decoder of whole streams, and the legal frame sequences stated without any decoder |
| `ControlFrames.dfy` | pings and pongs do not interfere with messages |
| `Mutex.dfy` | the class `Mutex` and all runs of `lock` and `unlock` |
| `Writer.dfy`, `ProtocolWriter.dfy` | frames on the wire, fragmentation, and the class `ProtocolWriter` with its fragmentation loop and masking in place |
| `Interleaving.dfy`, `Calls.dfy`, `WriterSafety.dfy` | concurrent `send`, `close`, `ping` and `pong` calls as steps between their awaits, what a run has called for, and what every interleaving keeps |
| `WriterProgress.dfy` | the writer comes to rest: a bound on its steps, and what a `close` that throws does to the calls behind it |
| `WriterMutexes.dfy` | the interleaved writer's queues are runs of `Mutex` |
| `RoundTrip.dfy` | any interleaved writer composed with the opposite reader |
| `WebSocket.dfy`, `Handshake.dfy`, `HandshakeSafety.dfy`, `HandshakePings.dfy`, `TwoClosers.dfy` | the endpoint class, two endpoints with two FIFO channels, and the close handshake over whole runs |
| `CleanClose.dfy` | that a close always completes, the close event exactly, and when it is clean |
| `Extensions.dfy` | `parseExtensionLine` and its print/parse round trip |

Objects of the source are classes with the source's fields; their methods are proved against functions on values
(`Machine`, `State`, `Endpoint`, `Parser`), and the properties are proved of those functions. A `Buffer` is a view
(`Chunk`) of an array other views may share. Interleavings are step systems: a step is what one caller does between two
awaits, and steps of different callers may come in any order.

Handlers become the event list of the reader; the random mask of a frame is a parameter of the step that draws it; the
UTF-8 decoder is an arbitrary predicate on bytes (`utf8`), the encoder of close reasons an arbitrary function (`encode`);
message text is its bytes. A frame's payload size stays below 2^53, `maxFragmentSize` is at least 1. The platform is
little-endian, as the masker itself assumes.

The writer's steps treat its mutexes as queues served at the front. `Mutexes.ActsAsQueue` shows that the promise chain of
`Mutex` behaves so, and `WriterMutexes.WriterUsesMutexes` that every run of the writer is a run of both mutexes in which
only holders unlock.

## Where the code is not what it seems

- The test of the most significant bit at `source/protocolReader.js:363` can never hold (`Frames.TopBitTestNeverFires`);
  oversized lengths are refused by the next line. The test at `source/masker.js:36` compares an array with 0 and never
  holds either.
- A server accepts an unmasked frame if it is empty, and lengths need not be in their shortest form; `Legality.WellFormed`
  says so. The reader goes on parsing after a Close frame.
- `close` with a code or reason it rejects throws while it holds the message mutex: no message frame is passed on ever
  after (`WriterSafety.StuckForGood`). `WriterProgress.RefusedCloseBlocks` is such a run: a client's `close(1001)` with a
  message behind it. `WriterProgress.ClosesUnlessRefused` is the exact condition: when a `close` gets its turn, a Close
  frame can still be written if and only if the call does not throw.
- If both sides call `close`, the server may end the stream while its own Close frame is still queued, so that it is never
  written. `TwoClosers.BothCloseLosesOne` is such a run, `TwoClosers.LostExactlyWhenCrossing` the exact condition. The
  delivery theorems therefore speak of runs in which only one side calls `close`.
- `wasClean` can be false although both Close frames have gone both ways: when the socket closes before the `close` call has
  resolved (`CleanClose.EventIsExact`, `CleanClose.UncleanRunExists`). Both events can still become clean if and only if none
  so far was unclean (`CleanClose.CleanExactly`).
- `Mutex.unlock` takes the first key off the list, whoever calls it (`Mutexes.UnlockTakesFirst`): right for holders only.
- An empty quoted parameter value is returned as if there were none; printed extensions are read back as what they mean if
  and only if no parameter that counts has such a value (`Extensions.ValuesKept`).
- The extension parser looks at more than the grammar's separators: without a blank behind it a semicolon joins names
  (`Extensions.SemicolonsJoin`), a blank before it swaps title and parameter (`Extensions.BlankBeforeSemicolon`), and a name
  without its value reaches over a comma (`Extensions.DanglingName`).
- A close reason that is an empty string arrives as no reason at all.

## Model

| member | source | states |
|---|---|---|
| Bytes.SizeRoundTrip | source/protocolWriter.js:259-262 | an extended length written big-endian in a width it fits is read back exactly |
| Masking.XoredTwice | source/protocolRelated.js:138-144 | masking twice from the same key position gives back the data |
| Masking.XorWithMaskingKey | source/protocolRelated.js:138-144 | the byte loop replaces every byte by its combination with key byte `i % 4` |
| Masking.Masker.NewMask | source/masker.js:10-33 | from a number or from four bytes: returns the mask whose big-endian bytes are the key, buffers its four rotations as words, sets the position to 0 |
| Masking.SwapIsBigEndian | source/div.js:4-11 | the swapped word shows the mask's big-endian bytes in little-endian memory |
| Masking.RotatedBytes | source/masker.js:28-31 | shifting the word around by bytes rotates its four bytes |
| Masking.WordXor | source/masker.js:44-46 | one word operation masks four bytes as the byte loop would |
| Masking.Masker.MaskInPlace | source/masker.js:35-56 | for every length, alignment and position: exactly the viewed bytes are masked byte-wise, all others in the buffer stay, and the position advances by the length modulo 4 |
| Masking.Masker.MaskAligned | source/masker.js:39-49 | the word path with the rotation for the current position equals byte-wise masking from that position |
| Masking.Masker.MaskTail | source/masker.js:51-54 | the byte loop completes what the word loop began, the position wrapping at 4 |
| Masking.PiecesMaskWhole | source/masker.js:35-56 | consecutive calls on pieces of any lengths, the position carried over, mask what one call on the whole would |
| Masking.XoredZero | source/protocolWriter.js:193-197 | the mask 0 changes nothing, which is why `zeroMasking` may skip it |
| Frames.FrameHeader | source/protocolWriter.js:233-265 | the buffer filled field by field holds exactly bit field, extended length and mask |
| Frames.BitFieldRoundTrip | source/protocolReader.js:319-343 | the first two bytes give back FIN, the reserved bits, opcode, mask bit and length field |
| Frames.HeaderRoundTrip | source/protocolReader.js:319-378 | for every opcode, FIN, compression bit, optional mask and size up to 2^53-1: the two-stage read recovers the fields and stops at the payload, whatever follows |
| Frames.RestRoundTrip | source/protocolReader.js:358-369 | the second header part gives back extended length and mask in each of the three length forms |
| Frames.HeaderIsShortest | source/protocolWriter.js:241-250 | no header that a reader takes for the same size and masking is shorter than the one written |
| Frames.TopBitTestNeverFires | source/protocolReader.js:363-363 | the most-significant-bit test on a 64-bit size is false for all eight-byte sizes |
| WireFormat.TwoBytes | source/protocolReader.js:358-366 | two bytes are a number with the first counting 256 |
| WireFormat.EightBytes | source/protocolReader.js:359-365 | eight bytes are a number with the first counting 2^56 |
| WireFormat.KeyBytes | source/div.js:4-11 | the key bytes of a mask, most significant first |
| WireFormat.FirstBytes | source/protocolReader.js:319-343 | FIN, RSV1 to RSV3, opcode, mask bit and length field stand at 0x80, 0x40, 0x20, 0x10, 0x0F of the first and 0x80, 0x7F of the second byte |
| WireFormat.HeaderOnWire | source/protocolWriter.js:233-265 | a written header has exactly those two bytes, none, two or eight bytes of length and the mask, by size up to 125, up to 65535 and beyond |
| WireFormat.Opcodes | source/protocolRelated.js:7-16 | the first byte of each kind of frame as a number |
| WireFormat.FrameOnWire | source/protocolWriter.js:193-198 | a masked payload byte is combined with the mask byte on the wire at its own place modulo 4 |
| WireFormat.ShortFrame | source/protocolWriter.js:188-207 | a frame of up to 125 bytes is two bytes, the mask if any, and the payload under it |
| WireFormat.RestOnWire | source/protocolReader.js:358-369 | 126 announces two, 127 eight more bytes; lengths above 2^53-1 are refused with 1009, nothing else is; the mask is the last four bytes |
| CodeRules.CodesRead | source/protocolRelated.js:18-19 | the codes a server and a client let through, as ranges of numbers |
| CodeRules.CodesSent | source/protocolWriter.js:130-136 | the codes a client and a server may pass to `close`, as ranges of numbers |
| CodeRules.CodeIsRead | source/protocolReader.js:88-113 | the bytes of a Close frame with any code, in any cutting: reported for exactly those codes, else error 1002 and no event |
| Decoder.HandleHeader | source/protocolReader.js:209-266 | a header leaves the reader failed, between frames or before the payload it announced, without touching unread bytes |
| Decoder.Consume | source/protocolReader.js:411-442 | consuming bytes counts them and moves to the next header exactly at the end of the payload, unless the reader fails |
| Decoder.Step | source/protocolReader.js:138-164 | each parsing step consumes at least one unread byte and keeps the phases consistent |
| Decoder.Drain | source/protocolReader.js:138-165 | parsing ends, and only when more bytes are needed or the reader has failed |
| Chunking.ConsumeSplit | source/protocolReader.js:146-163 | a payload consumed in two pieces equals the payload consumed at once, mask position and completion included |
| Chunking.DrainPartial | source/protocolReader.js:145-163 | taking any part of the available payload first does not change where parsing ends |
| Chunking.DrainFeed | source/protocolReader.js:130-166 | parsing what has arrived before more arrives changes nothing |
| Chunking.ChunkingIrrelevant | source/protocolReader.js:130-166 | chunk by chunk and all at once end in the same phase, frame, message, unread bytes, events and error |
| Chunking.CuttingsAgree | source/protocolReader.js:130-166 | any two cuttings of the same bytes agree in all of that |
| Chunking.ErrorIsAbsorbing | source/protocolReader.js:118-128 | after an error nothing more is reported and the error stays, whatever arrives |
| Chunking.LeftoverBound | source/protocolReader.js:138-138 | without error fewer bytes than the next part needs stay unread: at most 11, none inside a payload |
| Reference.HeaderOutcome | source/protocolReader.js:209-266 | what a header alone does equals what the whole-stream decoder does with an empty frame, or nothing yet |
| Reference.DrainFrame | source/protocolReader.js:138-164 | one whole frame moves the incremental reader as it moves the whole-stream decoder |
| Reference.MachineAgrees | source/protocolReader.js:130-166 | on every byte string the incremental reader and the whole-stream decoder report the same events and the same error |
| Reference.ReaderAgrees | source/protocolReader.js:130-166 | the same for a reader fed from the start in any chunks |
| Legality.HeaderRules | source/protocolReader.js:209-266 | the header checks in their order accept exactly the well-formed headers that fit the open or closed message, the others with 1002 |
| Legality.CloseRules | source/protocolReader.js:88-115 | a close payload is accepted exactly when code and reason are legal, and reported with that code and reason; else 1007 for its text, 1002 for the rest |
| Legality.FrameAccepted | source/protocolReader.js:209-266 | a frame is accepted exactly when it is legal at its place, and reports the event it stands for; else it fails with its code |
| Legality.PrefixReported | source/protocolReader.js:118-128 | frames before the first illegal one are reported, nothing from there on |
| Legality.ExactAcceptance | source/protocolReader.js:130-166 | for every byte stream in every cutting: an error exactly when the stream leaves the legal language, which error, and exactly the events before that |
| Legality.AcceptedExactly | source/protocolReader.js:130-166 | no error if and only if all frames are legal and the tail may still become legal |
| ControlFrames.InterjectedIsSimilar | source/protocolReader.js:430-441 | a well-formed ping or pong changes neither the message being assembled nor the error |
| ControlFrames.FramesDoNotInterfere | source/protocolReader.js:209-266 | taking all such frames out leaves messages, closes and error unchanged |
| ControlFrames.SplitWithout | source/protocolReader.js:319-378 | cutting their bytes out of a stream cuts exactly those frames out of its frame sequence |
| ControlFrames.ControlFramesDoNotInterfere | source/protocolReader.js:130-166 | for every byte stream and every cutting with and without its pings and pongs: same messages, closes and error |
| Reader.ProtocolReader.constructor | source/protocolReader.js:48-70 | a new reader waits for a header with nothing read |
| Reader.ProtocolReader.QueueBookkeeping | source/protocolReader.js:13-15 | `#buffered` is the total chunk length minus `#chunkOffset`, no chunk is empty, the offset lies inside chunk 0 |
| Reader.ProtocolReader.TrimCurrentChunk | source/protocolReader.js:269-272 | the reduced view of chunk 0 shows the same unread bytes with offset 0 |
| Reader.ProtocolReader.FillSmall | source/protocolReader.js:275-284 | up to 8 bytes across chunk borders arrive in the scratch buffer in order and leave the queue |
| Reader.ProtocolReader.FillLarge | source/protocolReader.js:285-300 | more bytes arrive in a new buffer, the chunks used up are removed and the offset is set behind the last byte |
| Reader.ProtocolReader.CountChunks | source/protocolReader.js:289-292 | the loop stops at the first chunk with which enough bytes are found |
| Reader.ProtocolReader.Read | source/protocolReader.js:304-317 | on the direct, scratch and concatenating path alike: exactly the next bytes, and exactly those removed |
| Reader.ProtocolReader.EmitMessage | source/protocolReader.js:168-206 | the assembled bytes are reported by kind, invalid text fails with 1007, a final frame clears the message |
| Reader.ProtocolReader.ReadClose | source/protocolReader.js:88-113 | length, UTF-8 and code checks in the code's order give the verdict |
| Reader.ProtocolReader.Unmask | source/protocolReader.js:419-419 | a server unmasks the chunk where it lies with the position of its first byte; nothing the reader holds changes |
| Reader.ProtocolReader.ConsumePayloadChunk | source/protocolReader.js:411-468 | the object does with the chunk what the pure machine does with its bytes, touching no byte outside the chunk |
| Reader.ProtocolReader.CheckHeader | source/protocolReader.js:213-247 | the checks yield the first fault of the header |
| Reader.ProtocolReader.HandleHeader | source/protocolReader.js:209-266 | the object handles a header as the pure machine, the masker taking its key |
| Reader.ProtocolReader.Read16BitHeader | source/protocolReader.js:319-356 | the first header part as the pure machine reads it |
| Reader.ProtocolReader.ReadRestOfHeader | source/protocolReader.js:358-378 | the second header part as the pure machine reads it |
| Reader.ProtocolReader.ParseRest | source/protocolReader.js:359-369 | length and mask are taken from the right places, oversized lengths refused with 1009 |
| Reader.ProtocolReader.ConsumeFirst | source/protocolReader.js:148-160 | a chunk, or as much of it as belongs to the frame, is taken; the rest is put back unmasked |
| Reader.ProtocolReader.ConsumeChunks | source/protocolReader.js:148-162 | the payload loop leaves the outcome of parsing unchanged and consumes bytes |
| Reader.ProtocolReader.Parse | source/protocolReader.js:138-164 | the loop leaves the object where the pure machine stops |
| Reader.ProtocolReader.Transform | source/protocolReader.js:130-166 | a chunk in memory apart from what is held is parsed as the pure machine parses its bytes, with all invariants kept |
| Reader.TransformAll | source/protocolReader.js:130-166 | chunk after chunk, the object ends where the pure machine fed with the same chunks ends, so everything proved of `FeedAll` holds of it |
| Reader.ProtocolReader.AcceptAnyCloseCode | source/websocket.js:208-208 | the check of close codes is off from here on, and nothing else changes |
| CloseCodes.RunTrusted | source/protocolReader.js:100-110 | a run without error goes the same way whether or not close codes are checked |
| CloseCodes.ClosingServer | source/websocket.js:208-208 | a reader whose check is switched off between two chunks ends as one that never checked, if nothing failed before, else as one that always did |
| CloseCodes.TransformClosing | source/websocket.js:208-208 | the same of the object: some chunks, the check switched off, the other chunks |
| Mutexes.Mutex.Lock | source/div.js:30-53 | a new key joins the list, waits for the previous lock and becomes the last |
| Mutexes.Mutex.Resume | source/div.js:72-74 | a call whose awaited lock is released gets its key, once |
| Mutexes.Mutex.Unlock | source/div.js:40-51 | the first key leaves, the last lock is forgotten with the last key, a second unlock throws and changes nothing |
| Mutexes.MutualExclusion | source/div.js:30-75 | in every run at most one key is granted and unreleased, and it is the first of the list |
| Mutexes.GrantsFollowCalls | source/div.js:30-75 | the i-th `lock` call is the i-th granted |
| Mutexes.KeysAreUnreleased | source/div.js:30-75 | `#keys` holds exactly the unreleased keys in call order; `#lock` is that of the last, or undefined |
| Mutexes.FirstIsNext | source/div.js:72-74 | a waiting call can resume if and only if its key is the first and not granted yet: no deadlock, no overtaking |
| Mutexes.UnlockTakesFirst | source/div.js:46-46 | unlocking removes the caller's own key if and only if that is the first |
| Mutexes.ActsAsQueue | source/div.js:30-75 | every step of every run is a step of a queue served at its front |
| Writer.TransmittedIsBody | source/protocolWriter.js:193-198 | what is transmitted is the payload under the announced mask, `zeroMasking` included |
| Writer.FragmentsPartition | source/protocolWriter.js:112-122 | the fragments' payloads concatenate to the data, all but the last are full, the first carries the kind, the rest continue, exactly the last is final |
| ProtocolWriters.ProtocolWriter.WriteFrame | source/protocolWriter.js:188-207 | header and masked payload reach the stream; the caller's bytes are masked where they lie, their neighbours untouched |
| ProtocolWriters.ProtocolWriter.Send | source/protocolWriter.js:109-125 | while the message mutex is free: the loop writes exactly the frames of the fragments in order, leaves the caller's buffer as transmitted and `bufferedAmount` as before, and the mutex free again |
| ProtocolWriters.ProtocolWriter.Close | source/protocolWriter.js:127-150 | two bytes of code and the encoding of the reason, of its first 123 characters if it is longer, in a Close frame, or nothing at all exactly when code or reason is refused; on every path the message mutex stays locked, so that no `send` or `close` can follow |
| ProtocolWriters.ProtocolWriter.Pong | source/protocolWriter.js:167-169 | a pong frame with the given payload |
| Calls.ClosePayloadIs | source/protocolWriter.js:137-147 | the payload of a Close frame: two bytes of code, then the encoding of the reason or of its first 123 characters |
| Calls.ThrowsExactly | source/protocolWriter.js:130-143 | `close` throws exactly at a code outside its side's ranges, while codes are checked, and at more than 123 encoded bytes |
| Calls.CallsArePossible | source/protocolWriter.js:109-169 | calls can be made in every state |
| Calls.RunRecords | source/protocolWriter.js:109-207 | told from the actions of any run: the calls on record are those made, a ping for `ping`, a pong for `pong`; codes are checked until told not to; each frame takes the mask drawn at its turn |
| Interleaving.StepKeepsFrames | source/protocolWriter.js:188-207 | every step keeps the frame queue in order: the wire is the frames written and at most the header of the next |
| Interleaving.StepKeepsTurns | source/protocolWriter.js:109-150 | every step keeps the message queue in order: frames passed on and frames ahead are together those of the calls |
| Interleaving.StepKeepsCounts | source/protocolWriter.js:109-124 | every step keeps `bufferedAmount` and the record of pings and pongs |
| Interleaving.RunKeepsInv | source/protocolWriter.js:109-207 | so does every run of any interleaved callers |
| WriterSafety.WireIsWholeFrames | source/protocolWriter.js:188-207 | in every reachable state the wire is whole frames and at most one header |
| WriterSafety.MessagesInOrder | source/protocolWriter.js:109-125 | without pings and pongs the frames written in a run are a beginning of what its served `send` and `close` actions amount to, in order, fragments contiguous, all but the last call sends |
| WriterSafety.FinishedAreWritten | source/protocolWriter.js:109-125 | all frames of the calls that have finished are on the wire, in call order |
| WriterSafety.ClosedIsWritten | source/protocolWriter.js:127-150 | once the first call has closed, the message frames on the wire are exactly those of the calls up to it, its Close frame the last |
| WriterSafety.NothingAfterClose | source/protocolWriter.js:127-150 | after a Close frame only pings and pongs are ever written |
| WriterSafety.ControlsInOrder | source/protocolWriter.js:152-169 | the pings and pongs written are a beginning of the run's `ping` and `pong` actions with their payloads, all of them once the frame mutex is free |
| WriterSafety.PongsInOrder | source/protocolWriter.js:167-169 | the same for `pong` actions alone |
| WriterSafety.BufferedIsPending | source/protocolWriter.js:109-124 | `bufferedAmount` is the number of bytes in the run's `send` actions that have not finished |
| WriterSafety.IdleMeansSent | source/protocolWriter.js:109-125 | with both mutexes free everything the run's actions called for is on the wire |
| WriterSafety.NoDeadlock | source/protocolWriter.js:109-207 | a step other than a new call is possible exactly while a frame or an unstuck call waits |
| WriterSafety.StuckForGood | source/protocolWriter.js:127-149 | after a `close` that closed, or threw, no message frame is passed on in any continuation |
| WriterProgress.StepCosts | source/protocolWriter.js:109-207 | every step that is no new call lowers the bound on the steps left |
| WriterProgress.RunIsBounded | source/protocolWriter.js:109-207 | a run without new calls has at most that many steps |
| WriterProgress.ComesToRest | source/protocolWriter.js:109-207 | from every reachable state, a run without new calls is bounded, can stop only when nothing is pending, and can be prolonged to such a stop |
| WriterProgress.ClosesUnlessRefused | source/protocolWriter.js:127-149 | when a `close` gets its turn, some continuation writes a Close frame if and only if the call does not throw |
| WriterProgress.RefusedCloseBlocks | source/protocolWriter.js:130-136 | a reachable state behind a client's `close(1001)`: in every continuation no message or Close frame is written and no `send` finishes |
| WriterMutexes.MoveIsStep | source/div.js:30-75 | joining, being served at and leaving a queue is a possible `lock`, grant and `unlock` of the mutex behind it |
| WriterMutexes.FrameMoves | source/protocolWriter.js:188-207 | every step joins, is served at, leaves or does not touch the frame mutex's queue |
| WriterMutexes.MessageMoves | source/protocolWriter.js:109-150 | the same for the message mutex |
| WriterMutexes.WriterUsesMutexes | source/protocolWriter.js:109-207 | every run of interleaved callers is a possible run of both mutexes in which only holders unlock; they end with one key for each waiting caller, the first granted exactly when its caller goes on |
| RoundTrip.WireReadBack | source/protocolReader.js:319-378 | the bytes of any frames are cut back into exactly those frames, whatever follows |
| RoundTrip.MaskIrrelevant | source/protocolReader.js:419-419 | which mask was drawn for a frame makes no difference to what is read |
| RoundTrip.MessageIsRead | source/protocolReader.js:444-468 | the fragments of a message, of any maximal size, are read as that message |
| RoundTrip.CloseIsRead | source/protocolReader.js:88-115 | a close frame is read as the code of the call and its reason, cut to 123 characters |
| RoundTrip.CallsAreRead | source/protocolReader.js:168-206 | the frames of any list of messages and closes are read as exactly those, in order, without error |
| RoundTrip.AsidesAreRead | source/protocolReader.js:80-86 | the pings and pongs reported are those written, in order, with their payloads |
| RoundTrip.WireIsRead | source/protocolReader.js:130-166 | at any moment of any run a partial frame at the end of the wire is no fault |
| RoundTrip.EndToEnd | source/protocolWriter.js:74-125 | for every run of actions, mask choice, fragment size and cutting: no error; of the run's `send` and `close` actions at least those finished and at most those served, in order; all of them when none is left; exactly those up to the `close` once one has closed; of its `ping` and `pong` actions a beginning, all when the frame mutex is free |
| RoundTrip.CheckedCodesAreAllowed | source/protocolWriter.js:130-136 | every code the writer lets through is one the opposite reader allows |
| WebSockets.CloseIsQueued | source/websocket.js:193-209 | a first `close` queues its frame with code and reason behind all messages, leaves OPEN and frees a server's reader; a second changes nothing |
| WebSockets.CloseIsEchoed | source/websocket.js:463-469 | the first Close received is noted and, unless `close` was called, echoed with its code, 1005 as 1000, and its reason |
| WebSockets.WebSocket.Close | source/websocket.js:193-209 | a first `close` marks the endpoint closing, frees a server's reader from code checks and queues the frame; another does nothing |
| WebSockets.WebSocket.ReceiveClose | source/websocket.js:463-469 | the first close received is noted and echoed, 1005 as 1000; another does nothing |
| WebSockets.WebSocket.ReceivePing | source/websocket.js:443-448 | a ping before any close is answered with its payload, later ones are not |
| WebSockets.WebSocket.SocketClosed | source/websocket.js:352-362 | the close event carries code, reason and whether both closes went through |
| Handshake.CallKeepsLink | source/protocolWriter.js:127-128 | a call joins the message queue behind all earlier ones; behind a close it counts no more |
| Handshake.WriteKeepsLink | source/protocolWriter.js:109-150 | writing the front of the queue loses, doubles and reorders nothing |
| Handshake.HeardKeepsAnswers | source/websocket.js:443-448 | exactly the pings received before a close are owed a pong |
| Handshake.CloseArrives | source/websocket.js:463-469 | the close about to be received is the first, passes the reader and carries the closer's code and reason |
| Handshake.BothClosesWritten | source/websocket.js:470-470 | when the server may end the stream both closes are on the wire |
| Handshake.StepKeepsInv | source/websocket.js:193-210 | every step of a run with one closer keeps the invariants of both directions and of the handshake |
| Handshake.RunKeepsInv | source/websocket.js:193-210 | so does every such run |
| HandshakeSafety.ArrivedInOrder | source/websocket.js:182-185 | what a side has received is at all times a beginning of what the other side sent |
| HandshakeSafety.CloseDeliversEverything | source/websocket.js:463-471 | a side that receives the close has received everything the other sent before it, nothing unsent or on the way |
| HandshakeSafety.CloserIsHeard | source/websocket.js:193-210 | in terms of the calls: the peer receives exactly the messages sent before `close`, then the close |
| HandshakeSafety.EndIsGraceful | source/websocket.js:463-471 | the server ends the stream only after both closes are on the wire; a closed client has received everything |
| HandshakeSafety.ClosesAgree | source/protocolReader.js:100-110 | no reader rejects the other's code, no writer throws, at most one Close per side and no message behind it, both report the same code and reason |
| HandshakeSafety.EventsAgree | source/websocket.js:352-362 | both close events carry the code and reason of the call; `wasClean` means a Close both sent and received (exactly when: `CleanClose.EventIsExact`) |
| HandshakeSafety.PingsAreAnswered | source/websocket.js:443-448 | the pongs written are a beginning of the pings accepted before a close, payloads and order included, all of them once the frame mutex is free |
| HandshakeSafety.ChecksAreKept | source/websocket.js:208-208 | in every run: a writer checks codes until a Close is received, a server's reader until it calls or echoes a close, a client's always |
| HandshakePings.PingsArrive | source/websocket.js:217-224 | pings received, on their way and queued are together exactly those of the run's `ping` calls, in order, with their payloads |
| HandshakePings.CodesPass | source/protocolReader.js:100-110 | the codes at which an endpoint's reader fails, as ranges of numbers |
| HandshakePings.CodesThrow | source/protocolWriter.js:130-136 | the codes at which its writer throws |
| HandshakePings.ThrownIsNotWritten | source/protocolWriter.js:130-136 | such a close is not written, and nothing behind it |
| HandshakePings.CallsArePossible | source/websocket.js:182-209 | which calls can be made in which state |
| CleanClose.EventOfSocket | source/websocket.js:352-362 | in any state: the close event is clean exactly if this side's Close was sent and the other's received; code and reason are those noted, or 1006 |
| CleanClose.EventIsExact | source/websocket.js:352-362 | with one closer: it carries the call's code and reason, and is clean exactly if this side's own `close` had resolved |
| CleanClose.CloseCompletes | source/websocket.js:193-210 | once `close` is called, a run without further calls is bounded and cannot stop before both sockets have closed |
| CleanClose.CleanExactly | source/websocket.js:352-362 | once `close` is called, some continuation ends with clean events on both sides if and only if no event so far was unclean |
| CleanClose.UncleanPossible | source/websocket.js:209-209 | while a client's `close` has not resolved, its socket may close first, with an unclean event |
| CleanClose.UncleanRunExists | source/websocket.js:209-209 | a run from the start in which that happens |
| CleanClose.QuietIsDelivered | source/websocket.js:182-185 | while nobody has called `close`, a run without further calls is bounded and, where it stops, every message has arrived and every ping is answered |
| HandshakeSafety.NeverReopens | source/websocket.js:193-210 | in any run an endpoint that left OPEN never returns to it |
| TwoClosers.LostExactlyWhenCrossing | source/websocket.js:463-471 | from any state in which the server has received a close and not ended the stream: its own Close can still be lost if and only if it had itself called `close` before and that frame is still queued |
| TwoClosers.BothCloseLosesOne | source/websocket.js:200-200 | a run in which that happens |
| Extensions.ParseExtensionLine | source/protocolRelated.js:50-81 | the loop over characters computes the parser's fold, errors included |
| Extensions.PrintParse | source/protocolRelated.js:50-81 | every list of extensions with token names and valueless, token or quoted parameters, printed with `; ` and `, `, is read back with unescaped values; a token is of any characters but nineteen, listed |
| Extensions.TokenIsRead | source/protocolRelated.js:52-52 | every token of the standard, character ranges said out, is read as an extension by itself |
| Extensions.SemicolonsJoin | source/protocolRelated.js:73-73 | names joined by semicolons without blanks are read as one |
| Extensions.BlankBeforeSemicolon | source/protocolRelated.js:72-73 | a blank before the semicolon swaps title and parameter |
| Extensions.LastNameCounts | source/protocolRelated.js:71-71 | of several names before a value the last counts |
| Extensions.DanglingName | source/protocolRelated.js:74-74 | a name without a value before a comma takes a value in the next extension |
| Extensions.QuotedNameJoins | source/protocolRelated.js:58-67 | a quotation that is no value is part of a name |
| Extensions.EachEscapedRead | source/protocolRelated.js:63-67 | in a quotation any character may be escaped |
| Extensions.ParametersKept | source/protocolRelated.js:54-54 | distinct parameters are all kept, each with its own value, and no others |
| Extensions.ValuesKept | source/protocolRelated.js:50-81 | printed extensions are read back with the values they mean if and only if no parameter, the last of its name, has an empty quotation for a value |
| Extensions.QuotedValueKept | source/protocolRelated.js:54-60 | parsing one printed parameter gives back its quoted value if and only if that is not empty |
| Extensions.RejectedExactly | source/protocolRelated.js:57-70 | a line is rejected exactly when one of fourteen listed characters stands outside quotations |

## Left out

- Compression: zlib is foreign code, and with it a control frame between compressed fragments is sent through the inflater (`source/protocolReader.js:420`).
- `sendStream`: its data handlers run concurrently across awaits, so fragments of a large chunk can be overtaken.
- Reader.ProtocolReader.EmitMessage: reports the bytes of a message and its kind; `binaryType` conversions, JSON mode and `utf8failFast`, which fails inside a message instead of at its end, are not modelled.
- `receiveStream` and piping into streams, `Blob` sends.
- Close reasons with characters outside the basic plane, of which the cut at 123 may leave half a pair.
- The UTF-8 decoder and encoder themselves, and the byte order mark the decoder strips; both are parameters.
- `receiveFragmentedMessages`, which the configuration check never lets through (`source/websocket.js:161`).
- Sockets that stop being writable or fail, and with them the forced termination timer, `#protocolError`, write errors and the `readyState` changes they cause after CLOSED; loss of the socket ends a run.
- Mutex timeouts, unused in the repository, and `allUnlockedPromise`.
- WebSockets.WebSocket.Close: states a call on an endpoint that is open or later; one made before waits for the connection and is then the same call. The forced termination timer it starts is not modelled.
- HTTP handshakes, redirects, configuration, ping timeouts and the ping mutex of `WebSocket`: pings are sent without waiting for earlier pongs, which allows more runs.
- `generatePermessageDeflateExtLine` and its parser: the domain is a finite table.
- Masking of one buffer by two sends in progress: in the interleaved writer the data of a call are values; the masking in place is in the sequential class `ProtocolWriter`.
- ProtocolWriters.ProtocolWriter.Send: states the wire for a writer no other caller uses meanwhile and whose message mutex is free, since a call behind a `close` never returns; the interleaved callers are in `Interleaving`.
- Interleaving.RunKeepsInv: a call and its frames are steps on values, and what a step does between two awaits is atomic.
- HandshakeSafety.CloseDeliversEverything: whole messages travel as single items; that the fragments of a finished message, and a close with all before it, are read as such is `RoundTrip.EndToEnd`. Close codes are ones the writer allows and reasons fit a frame.
- Reader.TransformAll: the chunks of a run lie in buffers of their own; `Transform` itself also takes views of one buffer.
- Arguments of `newMask` that are neither a number nor four bytes, which throw.
- The order of keys in a parsed extension's parameter object: parameters are a map.
