# wlgows, verified

A Dafny model of the middle of wlgows, the part between the socket and the application: sealing, masking,
buffering and fragmenting frames on the way out, reading, validating and assembling them on the way in, the two
locks under which goroutines share a connection, and the closing handshake of RFC 6455. `dafny verify
dfyconfig.toml` checks all of it.

## How the files fit together

| file | what it is |
|---|---|
| Bytes.dfy | bytes, xor, big and little endian words, joining sequences |
| Frame.dfy | a frame as a value and as a mutable object, its header, `MaskPayload` as the in-place loop it is |
| FrameRead.dfy | the parser as a function on the byte stream, and the reader that consumes it step by step |
| Writer.dfy | the `bufio.Writer` contract, over an array, with a socket that may fail at any byte |
| ConnectionWrite.dfy | header and payload through the writer's free space, the masking loop piece by piece |
| Sending.dfy | what one hold of `writeLocker` does to a connection, as relations between states, and what they keep |
| Interleaving.dfy | what other goroutines may do between the frames of a message, as relations between states |
| Connection.dfy | the class `Conn`: `SendFrame`, control frames, `RenewWriter`, `SendData`, streams |
| Messages.dfy | section 5.4 of RFC 6455, declaratively and as an automaton, and the cut `SendData` makes |
| FrameControl.dfy | control frames and the body of a close |
| WriteCount.dfy | how many socket writes a masked frame costs |
| Senders.dfy | any number of goroutines on one connection, as a transition system, and its invariants |
| SenderRuns.dfy, SenderProgress.dfy, SenderCalls.dfy, CloseGuard.dfy | what holds on the wire in every run; that calls finish; what a call comes to undisturbed; the exact reach of the close guard |
| Listener.dfy | the class `Listener`, its functions on values, the read loop over bytes, pausing |
| ListenerSpec.dfy, ListenerLaws.dfy | the specification it refines, and what is accepted where no limit applies |
| ListenerBudgets.dfy, DataHook.dfy | what a peer can make a Listener hold; data frames taken one by one |
| PauseChannels.dfy, Sessions.dfy | `Listen` and `PauseListen` from any number of goroutines; what the runs read between them |
| CloseHandshake.dfy | two standard listeners facing each other |
| EndToEnd.dfy | from `SendData`, or any run of senders, to the peer's hooks |

Code that changes things in place is modelled in place: frames, the write buffer, the connection, the reader and
the Listener are classes whose methods are proved against functions or relations on values. The concurrent parts
are transition systems whose steps use those same relations, so that every theorem about runs is about what the
methods were proved to do. The fields a close or a socket failure leaves behind (`closeSent`, the writer's sticky
error) are part of the state, and so is the history a theorem needs: `log` is every frame let through, `wire`
every byte on the socket.

Randomness is an arbitrary masking key or an error, and a socket write may fail after any number of bytes; ghost fields
remember that either happened, so that theorems can say "if nothing fails". UTF-8 validity is an arbitrary predicate on
byte strings, and a hook is a record of the call it gets, except in CloseHandshake.dfy, where the standard hooks act.

Induction is always spelled out in the proofs, and lemmas Dafny would otherwise try it on by itself say so.

## Where the code is less than its promise

- The close guard compares the whole opcode byte while the header carries four bits. `SendFrame` with opcode 0x18
  puts a second close on the wire. `CloseGuard.GuardIsExact` says for which opcodes the promise holds: those below
  16, and those whose low four bits are neither a close nor a data frame.
- `nextFrameByteLimit` always grants 125 bytes, so with a budget M above 2^64 - 126 a message that has come to 2^64 -
  125 bytes and a continuation of 125 wrap the running total. Where no payload is longer than B bytes and a message may
  have N frames (0: any number), no total wraps if and only if M is at most 2^64 - 126 or N > 0 and N * B < 2^64 - 125
  (`ListenerBudgets.SafeBudgetIsExact`), and the budget binds if and only if M is at most that or N > 0 and
  (N - 1) * B < 2^64 - 125 (`ListenerBudgets.BudgetBindsExactly`). Only a data hook, which retains nothing, lets it
  happen without 2^64 bytes in memory (`ListenerBudgets.WrappedIsRetained`).
- The reader accepts lengths that are not the shortest form, so sealing what was read need not give the same bytes;
  `FrameReading.ResealIffShortest` says when it does.
- A run that was paused while parked in its read can, when it returns, end the run that came after it.
  `PauseChannels.OverlapIsExact` says that this can happen to a run exactly when another has not returned;
  `PauseChannels.OverlappingRunEndsTheNext` is such a case.

## Model

| member | source | states |
|---|---|---|
| Frames.MaskPayload | Frame.go:83-95 | the 8-byte loop and its tail leave exactly the byte-at-a-time xor with key[i mod 4], and nothing outside the slice changes |
| Frames.MaskWord | Frame.go:86-91 | xor-ing eight bytes as one little endian word with the key repeated masks those eight bytes, and only those |
| Frames.MaskTail | Frame.go:92-94 | the byte loop masks what is left |
| Frames.MaskTwice | Frame.go:83-95 | masking is its own inverse |
| Bytes.XorBit | Frame.go:83-95 | exclusive or, as the masking uses it, is addition without carry in every bit |
| Frames.MaskSplitsExactlyOnWholeKeys | ConnectionWrite.go:110-115 | masking two pieces apart is masking them together for every key if and only if the first piece is whole keys or the second is empty |
| Frames.FrameRef.FillPayloadLength | Frame.go:140-153 | the length fields become those section 5.2 asks for |
| Frames.FrameRef.AppendSealedHeader | Frame.go:55-79 | the sealed header follows what the buffer held, in the buffer if it has room and otherwise in a copy that does |
| FrameReading.SealedLengthIsShortest | Frame.go:140-153 | no header declaring the same length is shorter than the one the length fields give |
| FrameReading.HeaderRoundTrip | FrameRead.go:80-117 | parsing a header gives back every field of it, whatever follows |
| FrameReading.ReadUndoesSeal | FrameRead.go:73-139 | reading a sealed frame gives the frame back and leaves exactly what followed it, or refuses it by the limit before its payload; whatever form its length is written in |
| FrameReading.CutFrameReadsShort | FrameRead.go:73-139 | a frame cut anywhere is never mistaken for a frame |
| FrameReading.ReadAllOfCutStream | FrameRead.go:73-139 | reading a stream of sealed frames cut anywhere gives a prefix of the frames, and all of them when nothing was cut |
| FrameReading.OnWireIsIdentity | Frame.go:55-79 | with opcodes below 16 the frames read are the frames sealed, whole |
| FrameReading.ReadThenSeal | FrameRead.go:73-139 | every frame read, sealed with the length fields it arrived in, gives back the very bytes it was read from |
| FrameReading.ResealIffShortest | FrameRead.go:93-117 | sealing what was read gives back its bytes exactly when the length was in the shortest form |
| FrameReading.LongFormIsRead | FrameRead.go:93-117 | such a stream: one byte of payload with its length in two |
| FrameReading.ShortExamples | Frame.go:39-79 | the unmasked examples of section 5.7 of RFC 6455, byte for byte |
| FrameReading.LongExamples | Frame.go:39-79 | its 256 byte and 64 KB examples: the length most significant byte first |
| FrameReading.MaskedZeroes | Frame.go:83-95 | the key is repeated over the payload from its first byte on |
| FrameReading.Reader.ReadFull | FrameRead.go:9-48 | all n bytes, or an error that swallowed what there was |
| FrameReading.Reader.ReadFirstTwo | FrameRead.go:75-88 | the first two bytes, bit by bit |
| FrameReading.Reader.ReadRestHeader | FrameRead.go:92-117 | extended length and key, read together, as the declared widths say |
| FrameReading.Reader.ReadPayloadInto | FrameRead.go:128-136 | the declared payload, unmasked where it landed |
| FrameReading.Reader.GetFrame | FrameRead.go:73-139 | the step-by-step reader does what the parsing function says, the size guard coming before the payload |
| Writers.Writer.Flush | ConnectionWrite.go:91-93 | everything buffered goes out in one write, or the first error of the socket sticks and the bytes not accepted stay buffered; a writer fails for no other reason |
| Writers.Writer.Write | ConnectionWrite.go:104-106 | wire and buffer together grow by exactly the bytes accepted, all of them unless the writer failed |
| ConnectionWrite.WriteFrameHeader | ConnectionWrite.go:89-97 | the sealed header follows everything written before, always finding room, at the cost of one flush if it does not fit and none if it does |
| ConnectionWrite.WriteFramePayload | ConnectionWrite.go:103-129 | terminates for every writer of at least 14 bytes, and appends exactly the masked payload however it was cut; the payload is untouched |
| ConnectionWrite.PieceLength | ConnectionWrite.go:111-114 | a piece is whole keys unless it is the rest |
| ConnectionWrite.WriteNextPiece | ConnectionWrite.go:122-126 | one piece, copied and masked in the free space, continues the masked payload where the last one ended |
| ConnectionWrite.WriteFrame | ConnectionWrite.go:46-49 | header and payload: wire and buffer grow by the frame's wire form, or by a prefix of it when the socket fails |
| ConnectionWrite.FitWriter | ConnectionWrite.go:231-236 | the writer handed on holds at least 14 bytes, the old one flushed when it is replaced |
| ConnectionWrite.LongestHeader | ConnectionWrite.go:224-227 | the longest header takes exactly those 14 bytes |
| WriteCount.FlushesInClosedForm | ConnectionWrite.go:109-127 | the flushes of the masking loop in closed form, for every size, free space and payload |
| WriteCount.WriteBound | ConnectionWrite.go:89-129 | a masked send through an empty buffer of S bytes costs at most 2 + L / (S - S mod 4) socket writes |
| WriteCount.WriteFloor | ConnectionWrite.go:89-129 | nor fewer than its bytes need at S bytes a write |
| WriteCount.OneMegabyte | SENDING_README.md:185-193 | 1 MB masked costs exactly 87,383 writes at 14 bytes, 257 at 4096, 17 at 64 KB, as documented |
| Sending.RefusalOfPrepared | ConnectionWrite.go:53-85 | settling a frame for sending does not change whether it is refused |
| Sending.RefusedIsExact | ConnectionWrite.go:53-62 | which frames a send refuses and for which reason, by opcode and length, nothing being written; a close counts once it is sent |
| Sending.SendIsWriteThenFlush | ConnectionWrite.go:169-183 | a buffered write and a flush under one hold are one send, and a close counts only when both succeeded |
| Sending.FrameSentKeepsSound | ConnectionWrite.go:169-183 | whatever fails in a send, every byte out belongs to the logged frames in order, one close is let through at most, no data after it, and closeSent knows of it unless the socket is dead |
| Sending.BufferedWriteKeepsSound | ConnectionWrite.go:37-62 | so does buffering a data frame |
| Sending.FlushKeepsSound | ConnectionWrite.go:209-222 | so does a flush, RenewWriter's included |
| Connections.Conn.NewConn | Connection.go:85-106 | for any writer on the socket: no connection exactly when it was too small and could not be flushed; otherwise everything it held is on the wire or buffered ahead of the first frame |
| Connections.Conn.BufferedWriteFrame | ConnectionWrite.go:37-62 | validate, settle, header, payload: the exact outcomes and the exact bytes of each |
| Connections.Conn.PrepareSendFrame | ConnectionWrite.go:71-85 | mask by side, the key that was drawn, shortest length fields, FIN on control frames, nothing else changed; it fails exactly when no key could be drawn |
| Connections.Conn.SendFrame | ConnectionWrite.go:147-183 | the outcomes of a send: refused with nothing written, no masking key, wholly on the wire with nothing buffered, or cut by the socket; if neither failed and the frame may be sent, it is |
| Connections.Conn.SendControl | ConnectionControlFrame.go:31-40 | a control frame is built and sent, or refused unbuilt with nothing written |
| Connections.Conn.FlushWriter | ConnectionWrite.go:174-176 | a flush puts everything buffered on the wire, or fails with every byte still accounted for |
| Connections.Conn.RenewWriter | ConnectionWrite.go:209-222 | for any new writer: the old one is flushed first, its failure leaves it in place, what the new one held goes out behind it, and later frames go through the new one; with the writer it has already, a connection is only flushed |
| Connections.Conn.RunOther | ConnectionWrite.go:147-222 | another goroutine's call between two frames of a message does what that call does |
| Connections.Conn.RunOthers | ConnectionWrite.go:147-222 | beside data frames, of which there is none, the log gains exactly the control frames whose calls returned nil, in order, and at most one in which the socket failed; each other call has its reason |
| Connections.Conn.SendFragment | ConnectionDataFrame.go:112-117 | one frame of a message, buffered under the lock, adds that fragment or nothing, and no other frame |
| Connections.Conn.SendNextChunk | ConnectionDataFrame.go:103-119 | one turn of the chunking loop puts the next chunk through with the right opcode and FIN, whatever others sent in between |
| Connections.Conn.SendData | ConnectionDataFrame.go:87-123 | the frames let through are a prefix of the message's own and, beside them, exactly the control frames that got through between them; nil means all are on the wire and nothing is buffered, and it is nil unless the socket failed, a key could not be had or a close went out; it waits while a stream is open |
| Interleaving.NextChunk | ConnectionDataFrame.go:104-110 | the slice a turn takes is the next chunk, and it is the last exactly when FIN is set |
| Interleaving.SentLogs | ConnectionWrite.go:169-183 | a send adds its own frame to the log or nothing, after no failure, and fails only for a reason that holds |
| Interleaving.OthersTwice | ConnectionWrite.go:147-222 | stretches of other goroutines' calls compose, with their outcomes and the frames they got through |
| Interleaving.OneOther | ConnectionWrite.go:147-222 | one such call adds its control frame, or a cut one, or nothing, and no data frame |
| Connections.Conn.StartLongDataTransmission | ConnectionLongDataTransmission.go:58-80 | which opcodes and states open a stream, in the order they are checked; while another is open the call waits, having changed nothing |
| Connections.Conn.SendStreamFrame | ConnectionLongDataTransmission.go:110-127 | the frame a stream call sends carries the opcode only while nothing of the message is out |
| Connections.Conn.TransmitData | ConnectionLongDataTransmission.go:102-132 | empty data and a missing Start send nothing; otherwise one frame, the opcode on the first only, and the stream counts as begun only if it was sent |
| Connections.Conn.EndLongDataTransmission | ConnectionLongDataTransmission.go:156-178 | one last frame with FIN, carrying the opcode if nothing was sent before |
| Connections.Conn.ReleaseLongDataTransmission | ConnectionLongDataTransmission.go:187-191 | both stream fields are cleared and the message lock freed |
| Messages.ChunksAreTheMessage | ConnectionDataFrame.go:103-110 | the cut loses and moves no byte, only the last chunk may be shorter, and it is empty only for an empty message |
| Messages.ConformsIffLegal | ConnectionDataFrame.go:50-66 | whole messages then at most one unfinished one, which is section 5.4, is what the one-fragment-at-a-time rules accept |
| Messages.CompleteAndRemainder | Frames.go:7-25 | cutting fragments after every FIN loses none of them |
| Messages.MessageOfIsMessage | ConnectionDataFrame.go:91-113 | opcode first, 0 after, FIN last is a message of section 5.4 |
| Senders.LocksKept | ConnectionWrite.go:147-152 | each lock has at most one owner, in every step of every goroutine |
| Senders.StreamFieldsKept | ConnectionLongDataTransmission.go:95-191 | the two stream fields say what the owner of the message lock is doing |
| Senders.OwnGrows | ConnectionDataFrame.go:103-119 | the owner's next frame extends its own message and keeps section 5.4 |
| Senders.WorkKeepsFraming | ConnectionDataFrame.go:91-122 | no hold of writeLocker, by the owner or anyone else, breaks section 5.4 |
| Senders.QuietStepKeepsFraming | ConnectionLongDataTransmission.go:58-80 | nor does taking or leaving the message lock |
| Senders.MarkedKept | ConnectionDataFrame.go:102-122 | a SendData's frames stay where they were logged, and on the wire once it is done |
| Senders.FoundOnWireKept | ConnectionDataFrame.go:91-94 | what the owner of the message lock found in the log was on the wire before it sent anything |
| Senders.AlwaysInv | ConnectionWrite.go:147-222 | all of it in every reachable state of every interleaving, whatever fails |
| SenderRuns.CloseIsLast | ConnectionWrite.go:53-62 | in every interleaving and with every failure, the wire carries at most one close and no data frame after it |
| SenderRuns.MessagesAreWhole | ConnectionDataFrame.go:91-122 | while callers keep their side, the wire's data frames are whole messages and then part of the very message the holder of the message lock is sending, or nothing if it is free; unless a close or the socket cut it off |
| SenderRuns.StreamIsConserved | ConnectionLongDataTransmission.go:58-191 | one frame per non-empty chunk sent, plus the final one, opcode first, FIN last, joining to the chunks, nothing in between, nothing buffered |
| SenderRuns.CurrentIffStream | ConnectionLongDataTransmission.go:74-80 | currentTransmitDataMsgOpcode is non-zero exactly while a stream owns the message lock, and is its opcode |
| SenderRuns.ReturnedMeansOnTheWire | ConnectionDataFrame.go:102-122 | when SendData returns nil, reading the wire finds every frame of its message, in order, whatever closes, control frames and RenewWriter calls came between, even after misuse |
| SenderProgress.SomeoneCanStep | ConnectionLongDataTransmission.go:65-79 | while a call is unfinished some goroutine can take a step, so the two locks never deadlock |
| SenderProgress.FinishingEnds | ConnectionDataFrame.go:91-122 | a run without new calls has a bounded number of steps |
| SenderProgress.Drains | ConnectionLongDataTransmission.go:65-79 | from every reachable state the calls already made can all return |
| SenderCalls.SendDataSucceeds | ConnectionDataFrame.go:87-123 | from every reachable state with nothing in its way, SendData has a run that returns nil with its whole message on the wire, cut as asked, everything else as it was |
| SenderCalls.StreamSucceeds | ConnectionLongDataTransmission.go:58-191 | so has a stream: one frame for each chunk that is not empty and one for its end, together a message, and both fields and the lock given back |
| SenderCalls.FrameSucceeds | ConnectionWrite.go:147-183 | so has SendFrame, whatever stream is open: its frame follows everything else, and a close counts at once |
| SenderCalls.RenewSucceeds | ConnectionWrite.go:209-222 | and RenewWriter, which leaves nothing in the buffer |
| SenderCalls.ClosedRefuses | ConnectionLongDataTransmission.go:65-73 | after a close a Start opens nothing, and a SendData or a stream sends nothing more |
| SenderCalls.BadOpcodesSendNothing | ConnectionDataFrame.go:87-100 | opcodes that open no message are turned away with nothing sent; taking or leaving a lock touches no byte |
| SenderCalls.CleanIsExact | ConnectionDataFrame.go:76-77 | exactly which steps break the callers' side: data past the message lock, and a message given up that was begun and could go on |
| CloseGuard.UnseenGoesOut | ConnectionWrite.go:53-62 | an opcode whose low four bits spell a close or a data frame goes out after the close |
| CloseGuard.GuardIsExact | ConnectionWrite.go:53-62 | the close promise survives an opcode if and only if it is below 16 or its low four bits are neither |
| FrameControl.CloseBodyRoundTrip | FrameControl.go:89-129 | decoding an encoded close body gives the body back, none included |
| FrameControl.EchoIsExact | FrameControl.go:115-129 | only a close can be decoded, exactly when it does not carry half a status code, and re-encoding gives the very bytes |
| FrameControl.AcceptedIffBuildable | ListenerRouter.go:168-206 | a close body is accepted exactly when it is empty or a code of 1000 to 1003, 1007 to 1014 or 3000 to 4999 with a UTF-8 reason |
| Listeners.Listener.RouteFrame | ListenerRouter.go:21-128 | the in-place router ends in the state, with the hook calls and the error, of the routing function |
| Listeners.Listener.RouteDataFrame | ListenerRouter.go:65-127 | the data branch, step by step: drop, both budgets, opcode, data hook or assembly |
| Listeners.Listener.HandOver | ListenerRouter.go:112-127 | the assembly is reset before the hook runs, and the hook named by the first frame gets the frames |
| Listeners.Listener.ResetCurrentDataFrames | ListenerRouter.go:137-142 | frames, both totals and the opcode start over |
| Listeners.Listener.constructor | Listener.go:103-111 | a new Listener has no message open |
| Listeners.Listener.SetConfig | ListenerConfig.go:156-161 | the configuration is replaced whole, and an open message is left as it is |
| Listeners.Listener.ValidTextUTF8 | ListenerRouter.go:152-157 | one frame judged in place is the same as the frames judged joined |
| Listeners.JoinFrames | Frames.go:60-66 | every payload in order, in a fresh buffer of exactly the right size |
| Listeners.ByteLen | Frames.go:73-79 | the length of what Bytes returns |
| Listeners.Listener.ListenFrame | ListenerListen.go:127-157 | one turn of the loop: read within the limit, validate, route |
| Listeners.Listener.ListenFrames | ListenerListen.go:120-159 | it handles a frame for every look that finds no pause, then returns the pauser's error; or its own, joined in front with the error its second look finds if a read failed; without a pause it ends by itself |
| Listeners.PauseIsTransparent | ListenerListen.go:120-159 | stopping after any number of frames and listening again is listening on: same state, calls and end |
| Listeners.PausesAreTransparent | ListenerListen.go:76-97 | however many runs there are, with the frames cut among them anyhow |
| Sessions.PauseTimingIsTransparent | ListenerListen.go:56-159 | whenever and from wherever runs that do not overlap are paused, they take consecutive stretches of the stream, and all hook calls together are those of one run that nobody paused |
| Sessions.OnlyTheLatestReads | ListenerListen.go:76-97 | a run that is over took its stretch before the next one began |
| Sessions.StreamDecides | ListenerListen.go:120-159 | while nothing has gone wrong the stream alone decides whether the reading run takes a frame, fails over it or fails to read one, and each can happen |
| Sessions.EndedAsSettled | ListenerListen.go:139-149 | the loop's answer to a failed read is what its run then returns, joined with the release of its claim if that came first |
| Listeners.UnpausedRunEnds | ListenerListen.go:120-159 | a run nobody pauses ends with an error |
| ListenerSpec.JoinOfKept | ListenerRouter.go:52-67 | dropping empty continuations leaves the message's bytes as they are |
| ListenerSpec.HeaderFaultIsRule | Listener.go:166-203 | the error of validation is the first of the rules on reserved bits, masking, FIN and 125 bytes that the frame breaks |
| ListenerSpec.CloseFaultIsRule | ListenerRouter.go:168-206 | the error of a close body: half a code, a code that may not appear, a reason that is not UTF-8, in that order |
| ListenerSpec.SameGuard | Listener.go:137-155 | the guarded uint64 subtraction refuses exactly the frames longer than what the message may still take, or 125 |
| ListenerSpec.TakeRefines | Listener.go:166-217 | one frame: same deliveries, same error and same open message as the specification |
| ListenerSpec.ListenerRefinesSpec | ListenerRouter.go:21-128 | every list of frames, every limit and every set of hooks: same deliveries, same first error |
| ListenerSpec.ListeningTakesAll | ListenerListen.go:120-159 | over sealed bytes the loop takes each frame in turn, then finds the end of the stream |
| Listeners.LimitIsExact | Listener.go:137-155 | the next frame may declare what the budget has left, or 125 if that is more, a budget lowered below what is in hand included |
| ListenerBudgets.BudgetKept | Listener.go:137-155 | under a safe budget the total stays within it, no read exceeds max(M - acc, 125), at most M + 125 bytes are in hand, and neither the byte total nor the frame count wraps |
| ListenerBudgets.BudgetKeptThroughout | ListenerRouter.go:69-82 | so after any list of frames, however many bytes they come to: the total is within the budget, and the next frame is added up exactly in bytes and in frames |
| ListenerBudgets.SafeBudgetIsExact | Listener.go:137-155 | over every list of frames that is accepted and every next one, none longer than `most`: no total wraps if and only if the budget is at most 2^64 - 126 or the frame limit times `most` is below 2^64 - 125 |
| ListenerBudgets.UnsafeBudgetWraps | ListenerRouter.go:69-82 | the frames, none longer than `most`, that bring a larger budget to 2^64 - 125 bytes, and the continuation that then makes the total wrap and, with a frame to spare, is accepted |
| ListenerBudgets.BudgetBindsExactly | ListenerRouter.go:69-82 | no accepted frame takes a message over its budget if and only if the budget is safe or the frame limit less one, times `most`, is below 2^64 - 125 |
| ListenerBudgets.WrappedIsRetained | ListenerRouter.go:94-108 | where frames are retained, a total that wraps means 2^64 bytes in hand |
| ListenerBudgets.LeanKept | ListenerRouter.go:52-110 | one frame, its size guard, validation and routing each under whatever configuration they find, keeps the frame count within the bytes plus one, and retained frames and bytes within the counters |
| ListenerBudgets.LeanThroughout | ListenerRouter.go:52-110 | so under configurations replaced between frames and within them |
| DataHook.DataHookIsEquivalent | ListenerRouter.go:94-110 | for every list: the data hook sees the same refusals, what it gets regroups to the messages Text and Binary would have got, by the opcodes it is told, and nothing is retained; up to the first text that is not UTF-8, which the hook gets whole, or the first close that is not, which both refuse |
| ListenerLaws.PlainSpec | ListenerRouter.go:21-128 | without limits, accepted are exactly frames with no reserved bit, the right mask and, if control, FIN and 125 bytes at most, in section 5.4 order, with text that is UTF-8 and closes with a legal body, reserved opcodes passing to their hook; every whole message reaches its hook joined, every other frame its own, in order |
| PauseChannels.AlwaysInv | ListenerListen.go:56-97 | in every reachable state each channel's history, and what its run made of it, is straight |
| PauseChannels.ChannelsAreSafe | ListenerListen.go:207-219 | the channel a pause sends to and closes is open and empty, so no send blocks and no closed channel is sent to or closed again; one value and one close at most, one open channel at a time |
| PauseChannels.ListenNeedsTheClaim | ListenerListen.go:76-97 | Listen is refused exactly while a claim is held, changing nothing |
| PauseChannels.RunReturnsTheFirstPause | ListenerListen.go:120-159 | a run with no error of its own returns exactly the error of the first call that released its claim; a failed read comes back alone or joined with the pause |
| PauseChannels.LooksFindTheRelease | ListenerListen.go:120-149 | a look that comes after the release finds its error, alone or joined in front of the error of a failed read; one that comes before finds nothing; a return leaves no claim held |
| PauseChannels.ResultIsFinal | ListenerListen.go:56-67 | what a run is about to return is what it returns |
| PauseChannels.ReleaseIsFinal | ListenerListen.go:207-219 | a second pause never overwrites the first |
| PauseChannels.SerialRunsReleaseTheirOwn | ListenerListen.go:56-67 | a returning run releases only its own claim when runs do not overlap |
| PauseChannels.OverlapIsExact | ListenerListen.go:56-67 | the run holding the claim can be ended by another run's return if and only if another run has not returned |
| PauseChannels.OverlappingRunEndsTheNext | ListenerListen.go:56-67 | a run in which an old loop's deferred release ends the next run |
| CloseHandshake.GoodCloseIsHeard | ListenerRouter.go:40-47 | a close with a legal body reaches its hook whatever the limits, whatever message is open, and whatever configuration replaces which on the way |
| CloseHandshake.AnswerKeepsSentWell | ConnectionListener.go:39-87 | what the standard hooks answer keeps its side's closes in order, and after a close or a reserved opcode a close is out |
| CloseHandshake.OneCloseEachWay | ConnectionListener.go:65-71 | each side sends at most one close, no data frame after it, and has sent one once it has routed the peer's, PauseListen from outside or not |
| CloseHandshake.NothingAfterTheClose | ConnectionListener.go:65-87 | no hook runs for any later frame of a run that routed a close or a reserved opcode: its loop neither reads nor parks to read again |
| CloseHandshake.CloseIsEchoed | ConnectionListener.go:65-71 | the echo carries the received body exactly and reaches the peer's close hook; a side that has closed already answers nothing |
| CloseHandshake.StartsAtRest | ConnectionListener.go:22-34 | two new standard connections are at rest, with nothing sent and no message open |
| CloseHandshake.HandshakeCompletes | ConnectionListener.go:65-71 | from every reachable state at rest either side can start, and then both have sent one close with the same body and each has heard the other's |
| CloseHandshake.OversizedDesyncs | FrameRead.go:118-126 | a frame over the limit is not heard or answered, and that side never reads in step again |
| CloseHandshake.RefusedEndsTheRun | ListenerListen.go:150-157 | a frame that is refused ends the run and is answered with nothing; any other leaves it going |
| CloseHandshake.ReadIsAnswered | ConnectionListener.go:39-87 | reading a ping sends exactly one pong with its payload, even after a close; reading a reserved opcode sends one close with code 1002 unless one is out; pongs and data frames are answered with nothing |
| CloseHandshake.SaidIsFrameSent | ConnectionWrite.go:169-183 | the handshake's sends are the connection's own |
| EndToEnd.WireIsHeard | ListenerListen.go:120-159 | whatever acceptable frames are sealed onto the wire, the peer's Listener hears all of them |
| EndToEnd.EveryRunIsHeard | ConnectionDataFrame.go:87-123 | whatever the sending goroutines did, the peer's hooks get exactly the whole messages and other frames that were let through |
| EndToEnd.SendAndListen | ConnectionDataFrame.go:87-123 | SendData on one side and a Listener on the other, whatever was sent before: nil if nothing fails and no close goes out, and then exactly one Text or Binary call with the payload, and exactly the control frames that got through between its frames, each to its own hook, in order; those that did not had a reason; both sides are ready for the next message |

## Left out

- Handshakes, TLS, HTTP parsing, `Loop` and the ping loop, deadlines and `FrameReadTimeout`: the edges of the library, or wall-clock time.
- `SendText`, `SendBinary`, `Frames.String` and `StandardClosePayloadFor`: one check, a renaming, `Bytes` again, and a lookup table.
- The dependency-injection structs: the real wiring is modelled, not the seams.
- Which error an io failure is: a socket failure is one outcome, the end of the stream another.
- A payload too large to allocate: the reader's allocation always succeeds. The exact budget results take the longest payload there can be as a parameter instead.
- Caller misuse the source forbids: Release without Start, End twice, another data message inside one's own stream, a writer built on another socket. A data frame through `SendFrame` and a message given up for want of a masking key are in the model, as the runs that are not `clean`.
- Control frames a stream's owner sends between its own calls: they are another goroutine's in the model, which allows the same orders.
- What user hooks do: a hook is recorded as called with its frames; changing them, or the configuration from inside a run, is not modelled, except that `ListenerBudgets.LeanThroughout` holds whatever configuration each look at it finds, and that the closing handshake lets it be replaced at any moment.
- Senders.AlwaysInv: the write buffer's size and the bytes it sends early are abstracted to any split of the frames between wire and buffer, as the connection's methods are proved to keep it.
- ListenerSpec.ListenerRefinesSpec: without a safe byte budget it asks for fewer than 2^64 - 2 payload bytes in all, past which the frame counter itself could wrap.
- EndToEnd.SendAndListen: payload and control frames together stay below 2^64 - 2 bytes, for the same reason, and before it all frames let through are on the wire and the Listener is between messages.
- CloseHandshake.OneCloseEachWay: neither socket fails, both sides send opcodes below 16, and after a frame over the limit, which leaves the stream desynced, that side listens no more.
- Sessions.PauseTimingIsTransparent: runs that do not overlap, up to the first error of a run's own; two loops reading at once are not modelled beyond their pause channels.
