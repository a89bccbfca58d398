# Ultrawidelock: a verified model

A Dafny model of the parts of Ultrawidelock that keep state across calls or undo one
another: the serial and SMP transports and the update receiver behind them, the lock-side
protocol machines, the timed filters and displays, the stack-depth analysis, and the
pairing codes and curve arithmetic. Each part follows the code that is cited for it, branch
by branch. Where the source updates state in place there is a class (or a method with the
source's loops), held to a specification function; the theorems are then stated about that
function, over every input, every run and every interleaving of events.

What lies outside a program is a choice carried by an event or a parameter: the radio, the
clock, random draws, cryptographic results, flash failures, other threads. A theorem over
all event sequences therefore covers every way these can turn out.

`dafny verify dfyconfig.toml` checks the whole project.

## How the files fit together

- `Bits`, `Seqs`, `Numbers`, `Options`: bytes and bit strings, and facts quoted by name.
- `Base64`, `Crc16`, `SerialFraming`, `SerialRoundTrip`, `SerialSoundness`: mcumgr serial
  frames. The decoder inverts the encoder from any state it can be in, and on any byte
  stream emits only packets that the stream spells out. `Base64Law`, `SerialLines`,
  `CrcDivision`, `Crc16Division`, `Crc32Division`: the same held to what the standards say,
  character by character, line by line, and as division of polynomials.
- `Crc32`, `DfuProtocol`, `DfuStaging`, `DfuReceiver`: the native update receiver, as a state
  machine and as the object with a write buffer and flash that implements it. `DfuRules`,
  `DfuHeader`: exactly which request gets which answer, and which bytes are an update.
- `DfuTransfer`, `DfuSession`, `DfuPeers`: the whole transfer, sender and receiver and a
  channel that loses, delays, repeats and reorders replies, and the sender as it is written.
- `DfuCommit`, `DfuOnce`: what the answer to COMMIT is worth, over that channel and over one
  that delivers each notification at most once.
- `SmpStream`, `SmpUpload`, `SmpReach`, `Cbor`, `CborRoundTrip`, `CborLaw`: SMP reassembly,
  image upload, and the CBOR both ends speak, including the indefinite-length spellings a
  peer may choose.
- `ClientSchedule`, `ScheduleRuns`: when the client of a bound lock acts. `MatterMachine`,
  `MatterSafety`, `MatterRouting`, `MatterWant`, `MatterTarget`, `MatterHandshake`,
  `MatterCommand`, `MatterOutcomes`, `MatterReach`, `MatterClient`: that client, over every
  interleaving.
- `WitnessLink`, `WitnessStanding`, `WitnessRuns`, `WitnessReplay`, `WitnessWindows`,
  `WitnessNode`: the sealed witness link, its two threads one access at a time.
- `Grant`, `GrantCalls`, `LoopCarry`: the grant step, the latch session carried through a gap,
  and the bolt held through a session flap.
- `Movement`, `StatusLed`, `LedShows`: the movement filter and the lamps.
- `StackDepth`: the memoised walk over a call graph.
- `Verhoeff`, `Base38`, `PairingCodes`, `ManualReading`, `Curve`, `CurveLaw`: check digit,
  base-38, manual and QR codes, P-256.

## Where the code does less than one might expect

- A body of more than 65533 bytes does not survive serial framing, because its length word
  wraps: `SerialRoundTrip.RoundTripIff` gives the exact bound.
- The reply to COMMIT carries the same id and offset as the reply to the last DATA request.
  In every run that reaches COMMIT, for every blob and chunk size, a late repeat of that
  reply can end the run as a success with nothing committed
  (`DfuCommit.CommitReplyProvesNothing`). Over a channel that delivers each notification at
  most once, this can happen if and only if the request that ended the blob was written more
  than once (`DfuOnce.ProvesCommitIff`). What holds of every run is stated at the exit of the
  DATA loop.
- An SMP upload has no transfer id. A client that starts while the receiver holds bytes of an
  earlier upload finishes with its own blob received if and only if those bytes are a prefix
  of it (`SmpUpload.ResumeIff`), and what it gets committed follows the earlier upload's
  geometry (`SmpUpload.ResumeCommitsIff`). Over a staged upload every client can finish, so
  the failure is real (`SmpUpload.StaleUploadFinishes`).
- A rearm that falls between the read of the rearm flag and the write of the synced flag of an
  accepted UnlockDoor is lost: the peer is then held to be unlocked although a rearm has come
  since, and the next want is not recorded (`MatterReach.RearmCanBeLost`). The flags tell the
  truth exactly where this did not happen (`MatterSafety.SyncedMeansUnlockedIff`,
  `MatterSafety.ResponseTruthfulIff`).
- An unsecured message is found to be the client's own without the lock. A poll between that
  and its handling can forget the fabric, and a Sigma2 is then handled with none
  (`MatterReach.Sigma2CanLoseItsFabric`); this happens if and only if the last poll in between
  found the fabric gone and picked no other (`MatterRouting.RoutedSigma2Iff`).
- A want is two writes without the lock. A poll between them measures it by the time of an
  earlier want and can drop it before it has its own (`MatterReach.WantCanBeDropped`), where
  the source expects one cycle's delay at worst; it stands after the second write if and only
  if no poll in between found it expired (`MatterWant.WantSurvivesIff`).
- The witness link's receive callback and its rolls of the challenge share no lock. A roll that
  comes and goes between the compare of a report and the store of its standing leaves a
  standing behind that the report no longer deserves, and so does a roll that has not yet swept
  its slot: a window is then published without the degraded flag on evidence of a retired
  challenge (`WitnessRuns.OvertakenOpens`, `WitnessRuns.UnderWayOpens`). A sweep can also take
  the standing of a report that echoed the new challenge (`WitnessRuns.SweptAfterwards`). The
  flag is honest exactly under `WitnessStanding.FlagHonestIff`, a window without it is sound
  exactly under `WitnessStanding.UndegradedIff`, and wherever rolls and reports never overlap
  every flag is honest (`WitnessStanding.ApartMeansHonest`).
- The stack-depth figure is always a true lower bound. Where every loop below the root costs a
  byte, it is the maximum if and only if there is no loop (`StackDepth.MaximalIff`); for every
  graph, a figure bounds all call paths if and only if loops cost nothing and it bounds the
  simple paths (`StackDepth.BoundsIff`), which this one does where every loop passes through
  the root (`StackDepth.RootLoopsMaximal`). With other recursion even simple paths can exceed it, with
  loops that cost something (`StackDepth.RecursionUnderReports`) and with loops that do not
  (`StackDepth.FreeLoopsUnderReport`), although the source calls it the deepest path.
- The two tools that print a manual code agree if and only if the passcode has at most 27
  bits: `PairingCodes.ToolsAgreeIff`.
- A latch gap is measured from its first pass at a clock other than zero, because zero stands
  for no gap (`LoopCarry.SurvivesIff`). A return from a gap spent at clock zero is not told to
  the witness link (`LoopCarry.LinkFollowsCredential`).
- `mul` reduces its scalar modulo the order before it starts, so `mul(N, L)` is the point at
  infinity for every `L`, on the curve or not (`Curve.Multiply`).

## Model

| member | source | states |
|---|---|---|
| Base64.AtobBtoa | web/flasher/serial.js:120-133 | decoding takes back the encoding of every byte string |
| Base64.BtoaText | web/flasher/serial.js:120-126 | encoded text is plain base64 characters, four for every three bytes begun |
| Base64Law.BtoaIs | web/flasher/serial.js:120-126 | the text of a byte string is one letter of the RFC 4648 alphabet for every six bits in order, the last filled up with zeros, and `=` up to a multiple of four |
| Base64Law.AtobIff | web/flasher/serial.js:128-133 | a text decodes if and only if, white space and padding apart, it is spelled in the alphabet and not one character past a multiple of four; and then to its bits, as many as make whole bytes |
| Crc16.Turn | web/flasher/serial.js:103-106 | the inner loop is the shift-and-xor by the polynomial, applied that many times |
| Crc16.Compute | web/flasher/serial.js:99-109 | the two loops compute the CRC-16/XMODEM register of the bytes |
| Crc16.ZeroResidue | web/flasher/serial.js:295-302 | the residue over a body and two bytes is zero if and only if the two bytes are the body's checksum |
| Crc16.BurstDetected | web/flasher/serial.js:99-109 | damage confined to two neighbouring bytes of a stream of any length always changes the checksum |
| Crc16Division.CrcIsRemainder | web/flasher/serial.js:99-109 | the checksum of every message is the remainder of the message, shifted by sixteen, on division by the polynomial with exactly the powers 16, 12, 5 and 0 |
| SerialFraming.EncodePacket | web/flasher/serial.js:143-169 | the encoder produces the frames of length word, body and checksum |
| SerialFraming.Slice | web/flasher/serial.js:153-164 | the slicing loop is the recursive cut into a first frame and later frames |
| SerialFraming.Take | web/flasher/serial.js:157-157 | a frame takes at least one byte, no more than its capacity, and two or more if others follow |
| SerialFraming.Framer.constructor | web/flasher/serial.js:184-209 | a new decoder is at rest |
| SerialFraming.Framer.FeedChunk | web/flasher/serial.js:215-257 | feeding a chunk is the decoder's step folded over its bytes, state and packets both |
| SerialFraming.Framer.FeedByte | web/flasher/serial.js:215-257 | one byte: noise skipped until a marker, an over-long line dropped, a newline ends a line |
| SerialFraming.Framer.Line | web/flasher/serial.js:259-303 | a line continues, completes, or discards the packet being built, with the want < 2 guard |
| SerialFraming.Framer.Reset | web/flasher/serial.js:305-309 | the packet is dropped and nothing else |
| SerialRoundTrip.RoundTrip | web/flasher/serial.js:143-309 | from any decoder state whatsoever, feeding an encoded body of at most 65533 bytes emits exactly that body and leaves the decoder at rest |
| SerialRoundTrip.RoundTripIff | web/flasher/serial.js:143-309 | a body comes back if and only if it has at most 65533 bytes |
| SerialRoundTrip.StreamRoundTrip | web/flasher/serial.js:143-309 | bodies encoded back to back come out in order, from any state |
| SerialRoundTrip.FeedConcat | web/flasher/serial.js:215-257 | how a stream is cut into chunks makes no difference to the decoder |
| SerialRoundTrip.FeedShort | web/flasher/serial.js:259-303 | no stream makes the decoder emit more than 65533 bytes at once |
| SerialRoundTrip.FrameShapes | web/flasher/serial.js:143-169 | every frame is at most 127 bytes, opens with its marker and holds one newline, at its end |
| SerialRoundTrip.OneMarker | web/flasher/serial.js:143-169 | the pair 0x06 0x09 occurs in an encoded packet exactly once, at its start |
| SerialSoundness.Sound | web/flasher/serial.js:215-303 | on every stream each emitted packet is spelled by a 0x0609 line and later 0x0414 lines, with its length word and checksum, and no line serves two packets |
| SerialSoundness.LineBounded | web/flasher/serial.js:215-257 | on every stream the line buffer holds at most 127 bytes |
| SerialLines.FramesAre | web/flasher/serial.js:143-169 | frame k of a packet exists and carries exactly its own bytes, 93 behind 0x0609 in the first and 90 behind 0x0414 in every other, with a newline |
| SerialLines.LineIs | web/flasher/serial.js:215-257 | a line of at most 127 bytes, carriage returns apart, is taken; a longer one is passed over and disturbs nothing, not even a packet half received |
| Crc32.UpdateAppend | modules/ultrawidelock_dfu/src/dfu_crc.c:8-18 | a checksum taken piece by piece is the checksum of the whole |
| Crc32Division.CrcIsRemainder | modules/ultrawidelock_dfu/src/dfu_crc.c:8-18 | the checksum of every message is, complemented and mirrored, the remainder on division by the IEEE 802.3 polynomial, power for power |
| DfuProtocol.FeedShape | modules/ultrawidelock_dfu/src/dfu_receiver.c:496-537 | feeding moves a transfer on by exactly the bytes given or not at all |
| DfuProtocol.CommitShape | modules/ultrawidelock_dfu/src/dfu_receiver.c:541-599 | only a complete transfer is written for the bootloader, as it arrived |
| DfuRules.AnswerShape | modules/ultrawidelock_dfu/src/dfu_receiver.c:402-419 | every answer is 0x82 and the number of the fault, or 0x81, the transfer named and where it stands |
| DfuRules.ClosedIff | modules/ultrawidelock_dfu/src/dfu_receiver.c:677-681 | error 1 if and only if the window is shut and the request is not empty |
| DfuRules.SequenceIff | modules/ultrawidelock_dfu/src/dfu_receiver.c:615-719 | error 2 if and only if an abort names no transfer of its owner, nobody has one, data comes with none active, or a commit before everything announced |
| DfuRules.SizeIff | modules/ultrawidelock_dfu/src/dfu_receiver.c:434-537 | error 3 if and only if a first begin announces no patch or more than fits, or data would run past what was announced |
| DfuRules.AuthIff | modules/ultrawidelock_dfu/src/dfu_receiver.c:496-537 | error 4 if and only if the ninety-sixth byte arrives and the signature is not good |
| DfuRules.IntegrityIff | modules/ultrawidelock_dfu/src/dfu_receiver.c:541-599 | error 5 if and only if a complete transfer does not match its header and its last block could be written |
| DfuRules.FlashIff | modules/ultrawidelock_dfu/src/dfu_receiver.c:434-599 | error 6 if and only if flash failed at one of the places it is used |
| DfuRules.MalformedIff | modules/ultrawidelock_dfu/src/dfu_receiver.c:601-719 | error 7 if and only if the request is empty, unknown or of the wrong length, or a begin names nobody or nothing |
| DfuRules.BusyIff | modules/ultrawidelock_dfu/src/dfu_receiver.c:434-664 | error 8 if and only if somebody has a transfer and the request is for another |
| DfuRules.FlushesIff | modules/ultrawidelock_dfu/src/dfu_receiver.c:310-328 | a block is written exactly when the patch passes a multiple of sixty-four bytes |
| DfuRules.RefusalLeaves | modules/ultrawidelock_dfu/src/dfu_receiver.c:615-719 | a refusal of data or of a commit for the transfer ends it, any other refusal changes nothing, and an abort that is granted ends it and clears the staging area |
| DfuRules.WrapperMeasured | modules/ultrawidelock_dfu/src/dfu_receiver.c:754-767 | of an MCUboot image the patch is what its header, built field by field, says, if that lies within the file, and the file is refused if not |
| DfuRules.PlainMeasured | modules/ultrawidelock_dfu/src/dfu_receiver.c:747-754 | only a file of at least 16 bytes that begins with the magic is taken as anything but the patch itself |
| DfuRules.UploadRules | modules/ultrawidelock_dfu/src/dfu_receiver.c:725-835 | denied exactly with the window shut, turned away exactly while another owner has the receiver, told where to go on off the cursor, and an invalid chunk leaves nothing of the upload |
| DfuHeader.MatchesIff | modules/ultrawidelock_dfu/include/ultrawidelock_dfu.h:104-125 | the receiver's check passes exactly where the first 32 bytes are the header, built field by field, of what follows the signature |
| DfuHeader.CommitStagesIff | modules/ultrawidelock_dfu/src/dfu_receiver.c:541-599 | in every run that comes to its COMMIT with nothing committed, on a port that works, the blob is committed byte for byte if and only if it begins with the header of its own patch, and is otherwise let go |
| DfuHeader.UpdateIsWellHeaded | modules/ultrawidelock_dfu/include/ultrawidelock_dfu.h:104-125 | every header, signature and patch put together is such a blob |
| DfuHeader.WrongWordsAreNot | modules/ultrawidelock_dfu/src/dfu_receiver.c:560-580 | a blob whose length word, checksum word, magic, version or own checksum is wrong is not |
| DfuHeader.HeadStops | modules/ultrawidelock_dfu/src/dfu_receiver.c:335-345 | a head that does not verify, or an area that does not erase, stops a transfer short of its patch |
| DfuHeader.HeadWasVerified | modules/ultrawidelock_dfu/src/dfu_receiver.c:496-537 | in every run, a transfer past its head had it completed by one of its own writes, with the signature good and the area erased |
| DfuHeader.ShutTakesNothing | modules/ultrawidelock_dfu/src/dfu_receiver.c:677-681 | with the window shut nothing is taken, from any transport |
| DfuStaging.Staging.constructor | modules/ultrawidelock_dfu/src/dfu_receiver.c:263-270 | an erased area, an empty buffer, an empty patch |
| DfuStaging.Staging.Rewind | modules/ultrawidelock_dfu/src/dfu_receiver.c:434-494 | the write path starts over with an empty patch |
| DfuStaging.Staging.FlushBlock | modules/ultrawidelock_dfu/src/dfu_receiver.c:281-303 | a full buffer lands behind the blocks before it |
| DfuStaging.Staging.WritePart | modules/ultrawidelock_dfu/src/dfu_receiver.c:310-328 | one pass of the loop appends its part |
| DfuStaging.Staging.Write | modules/ultrawidelock_dfu/src/dfu_receiver.c:310-328 | the buffered write is an append to the patch, and fails exactly if a block had to be written and could not |
| DfuStaging.Staging.PutTail | modules/ultrawidelock_dfu/src/dfu_receiver.c:281-303 | the padded tail lands behind the blocks before it |
| DfuStaging.Staging.FlushFinal | modules/ultrawidelock_dfu/src/dfu_receiver.c:281-303 | after the final flush flash holds the whole patch, byte for byte |
| DfuStaging.Staging.Erase | modules/ultrawidelock_dfu/src/dfu_receiver.c:371-385 | every byte of the area is erased |
| DfuStaging.Staging.PutHeader | modules/ultrawidelock_dfu/src/dfu_receiver.c:541-599 | the header goes onto its page and the patch is untouched |
| DfuReceiver.Receiver.constructor | modules/ultrawidelock_dfu/src/dfu_receiver.c:155-175 | a receiver with its window shut and no transfer |
| DfuReceiver.Receiver.ResetAll | modules/ultrawidelock_dfu/src/dfu_receiver.c:169-175 | drops the transfer and the upload cursor, and leaves what is committed on flash |
| DfuReceiver.Receiver.BeginAt | modules/ultrawidelock_dfu/src/dfu_receiver.c:434-494 | refines the machine's BEGIN: the idempotent repeat, the busy owner, the size limits |
| DfuReceiver.Receiver.FeedBytes | modules/ultrawidelock_dfu/src/dfu_receiver.c:496-537 | refines the machine's feed across the header boundary: header buffered and authenticated, the rest appended to the patch |
| DfuReceiver.Receiver.CommitNow | modules/ultrawidelock_dfu/src/dfu_receiver.c:541-599 | refines the machine's commit, whose verdict `DfuHeader.MatchesIff` ties to the header built field by field; when it succeeds flash holds the header and every patch byte |
| DfuReceiver.Receiver.DoBegin | modules/ultrawidelock_dfu/src/dfu_receiver.c:601-613 | refines the BEGIN frame, reply included |
| DfuReceiver.Receiver.DoData | modules/ultrawidelock_dfu/src/dfu_receiver.c:615-642 | refines the DATA frame: data for where the transfer stands is fed, and any other offset is answered with where that is |
| DfuReceiver.Receiver.DoCommit | modules/ultrawidelock_dfu/src/dfu_receiver.c:644-664 | refines the COMMIT frame, reply included |
| DfuReceiver.Receiver.DoAbort | modules/ultrawidelock_dfu/src/dfu_receiver.c:666-719 | refines the ABORT frame, reply included |
| DfuReceiver.Receiver.RxFrame | modules/ultrawidelock_dfu/src/dfu_receiver.c:666-719 | any frame from any owner leaves the object and its reply exactly as the state machine says |
| DfuReceiver.Receiver.TakeChunk | modules/ultrawidelock_dfu/src/dfu_receiver.c:725-835 | refines taking one upload chunk past the wrapper |
| DfuReceiver.Receiver.RxUpload | modules/ultrawidelock_dfu/src/dfu_receiver.c:725-835 | any upload request leaves the object and its answer as the state machine says |
| DfuReceiver.Receiver.SetWindow | modules/ultrawidelock_dfu/src/dfu_receiver.c:214-241 | shutting the window drops the transfer; opening it only opens it |
| DfuTransfer.Run | scripts/ultrawidelock_push.py:69-140 | every sequence of events keeps the transfer's invariant: what the receiver holds of this transfer is a prefix of the blob, and no reply claims more than was staged |
| DfuTransfer.StagedAtEachIteration | scripts/ultrawidelock_push.py:203-216 | under any loss, delay, repetition and reordering of replies, any retries and any traffic by others, each iteration of the DATA loop starts with exactly blob[..sent] staged wherever the receiver holds the transfer, which it does unless it has dropped it |
| DfuTransfer.StagedAtLoopExit | scripts/ultrawidelock_push.py:203-216 | the DATA loop can only be left with the whole blob staged, and it is staged wherever the receiver still holds the transfer |
| DfuTransfer.HighWasReached | scripts/README.md:59-64 | the high-water mark of a run was really staged at some point of it |
| DfuTransfer.CommittedIsTheBlob | scripts/README.md:59-64 | whatever a transfer ever gets committed is its blob, byte for byte |
| DfuTransfer.OnlyTheAnswerAdvances | web/flasher/uwldfu.js:201-222 | the cursor moves on only by an OK for this transfer at exactly the expected offset, never by another transfer's or an earlier one |
| DfuPeers.SenderTakes | scripts/ultrawidelock_push.py:80-119 | the awaited answer alone moves the sender on, another OK of nine bytes is passed over, a closed window before the transfer has begun is a reason to ask again, and anything else ends the run |
| DfuPeers.SenderAsks | web/flasher/uwldfu.js:78-105 | what each request is, byte for byte |
| DfuPeers.SenderRetries | scripts/ultrawidelock_push.py:77-90 | an unanswered request is written again until its tries are used up |
| DfuPeers.BoardMoves | modules/ultrawidelock_dfu/src/dfu_receiver.c:177-400 | closing the window lets go of what was arriving but not of what is staged, a lost link of its own transfer only, and an erase by its owner, or with none, clears the staging area |
| DfuCommit.ReachesCommit | scripts/ultrawidelock_push.py:200-220 | every blob that fits, in chunks of any size, can be brought to its COMMIT |
| DfuCommit.AnswerWasSent | scripts/ultrawidelock_push.py:203-216 | in every run, past the DATA loop the answer to the last DATA request has been sent |
| DfuCommit.CommitReplyProvesNothing | scripts/ultrawidelock_push.py:218-220 | every run at its COMMIT, with any blob and chunk size, can end as a success with the COMMIT refused, nothing held and nothing committed |
| DfuOnce.RunOnce | scripts/ultrawidelock_push.py:69-140 | where each notification is delivered at most once, every sequence of events keeps the count of full answers under way against the writes and accepts |
| DfuOnce.AcceptedIsCommitted | modules/ultrawidelock_dfu/src/dfu_receiver.c:644-664 | a COMMIT answered OK has committed the blob |
| DfuOnce.OnceMeansAccepted | scripts/ultrawidelock_push.py:218-220 | where each notification is delivered at most once and the last DATA request was written once, a run that ends as a success has had its COMMIT accepted |
| DfuOnce.ProvesCommitIff | scripts/ultrawidelock_push.py:203-220 | at any COMMIT still held, some way on ends as a success with no COMMIT accepted if and only if the request that ended the blob was written more than once |
| DfuTransfer.OkReplyFields | web/flasher/uwldfu.js:122-132 | the fields read from an OK reply are the ones it was built with |
| DfuTransfer.DataFields | web/flasher/uwldfu.js:88-97 | the fields read from a DATA frame are the ones it was built with |
| DfuSession.Session.constructor | scripts/ultrawidelock_push.py:59-63 | a session about to send BEGIN |
| DfuSession.Session.Take | scripts/ultrawidelock_push.py:82-84 | the head of the queue, or silence once it is empty |
| DfuSession.Session.Await | scripts/ultrawidelock_push.py:80-101 | the inner loop ignores OKs of other transfers and other offsets without moving the sender, and hands on the first notification that is neither |
| DfuSession.Session.Call | scripts/ultrawidelock_push.py:69-119 | a call ends with the expected offset and the sender advanced, with the tolerated refusal and the sender where it was, or with the run over |
| DfuSession.Session.Judge | scripts/ultrawidelock_push.py:105-119 | what each kind of reply comes to |
| DfuSession.ThreeTries | scripts/ultrawidelock_push.py:69-90 | the sender gives up when the third writing of a request goes unanswered, and not before |
| DfuSession.Session.WaitForWindow | scripts/ultrawidelock_push.py:121-140 | BEGIN is repeated until answered, or the run is over |
| DfuSession.Session.SendBlob | scripts/ultrawidelock_push.py:203-216 | the loop is left past the last byte, or with the run over |
| DfuSession.Session.Push | scripts/ultrawidelock_push.py:200-220 | the whole run is a sequence of the sender's moves, which take in exactly the notifications the queue delivered, in order, and ends finished or dead |
| DfuSession.MovesAreSteps | scripts/ultrawidelock_push.py:69-119 | each move of the sender is a step of the whole system |
| DfuSession.SessionInSystem | scripts/ultrawidelock_push.py:69-140 | in every run of the system the sender is where its own moves put it |
| DfuSession.SentMeansStaged | scripts/ultrawidelock_push.py:203-216 | a session past its DATA loop has had the whole blob staged |
| SmpStream.ParseConcat | web/flasher/smp.js:256-273 | reading a stream in two parts is reading it whole |
| SmpStream.ParseOfFrames | web/flasher/smp.js:256-273 | a sender's frames come out as they were, with nothing left over |
| SmpStream.WholeIff | web/flasher/smp.js:300-310 | a message as a sender spells it is one complete frame if and only if its body is shorter than 64 KiB |
| SmpStream.MessagesComeOut | web/flasher/smp.js:256-310 | messages sent one after the other are read as they were sent |
| SmpStream.ParseIsExact | web/flasher/smp.js:256-273 | every frame read is complete, no byte is lost, and what is left holds no whole frame |
| SmpStream.AnyCut | web/flasher/smp.js:256-273 | however a stream is cut into notifications the frames are the same, in order |
| SmpStream.Conversation.constructor | web/flasher/smp.js:242-249 | nothing fed, queued or waited for |
| SmpStream.Conversation.Feed | web/flasher/smp.js:256-273 | frames handed out and queued are the parse of everything fed, the longest waiter first, and queue and waiters are never both non-empty |
| SmpStream.Conversation.NextFrame | web/flasher/smp.js:275-287 | the oldest queued frame, or a place at the end of the waiters |
| SmpStream.Conversation.Expire | web/flasher/smp.js:275-287 | a waiter that timed out leaves and no other does |
| SmpUpload.Run | web/flasher/smp.js:369-403 | every sequence of events keeps the upload's invariant between client offset, receiver cursor and staged payload |
| SmpUpload.FinishedMeansStaged | web/flasher/smp.js:369-403 | started afresh, upload can only finish with exactly the blob received and exactly the patch inside it committed |
| SmpReach.UploadCompletes | web/flasher/smp.js:369-403 | an undisturbed upload of any file whose patch fits and matches its header finishes, with exactly the blob received and its patch committed |
| DfuPeers.ClientTakes | web/flasher/smp.js:376-402 | an offset that stands still fails the client, a closed window is a reason to ask again, and any other offset is where it goes on |
| DfuPeers.BoardMovesUpload | modules/ultrawidelock_dfu/src/dfu_receiver.c:177-400 | the same of the window, a lost link and an erase during an upload, and a native request meanwhile goes by the native rules |
| SmpUpload.ResumeIff | web/flasher/smp.js:369-403 | started over an earlier upload, what is received at the end is the bytes held spliced with the blob, which is the blob if and only if they were a prefix of it |
| SmpUpload.ResumeCommitsIff | modules/ultrawidelock_dfu/src/dfu_receiver.c:725-835 | what is then committed is the stretch the earlier upload's geometry names, and the client's own patch if and only if that names exactly it |
| SmpUpload.StaleUploadFinishes | web/flasher/smp.js:369-403 | over every staged upload, every client can finish, and without its blob if the bytes held are no prefix of it |
| SmpUpload.UploadOk | modules/ultrawidelock_dfu/src/dfu_receiver.c:725-835 | the cursor reported is honest and the file grows only by data sent for where it ends |
| SmpUpload.UploadLoop | web/flasher/smp.js:369-403 | the loop sends the requests of the client machine and ends where it ends, for every list of answers |
| SmpUpload.LoopInSystem | web/flasher/smp.js:369-403 | fed what a run of the system lets it hear, the loop ends where the run leaves the client |
| SmpUpload.LoopedMeansStaged | web/flasher/smp.js:369-403 | a loop that ends well on what a fresh run let it hear has had exactly its blob received and its patch committed |
| Cbor.PutNew | scripts/ultrawidelock_smp.py:158-225 | a key not yet in a map is added at its end |
| CborLaw.PutFinds | scripts/ultrawidelock_smp.py:158-225 | an assignment changes what its own key finds and nothing else, and only a new key is added, at the end |
| CborLaw.KeysCollideIff | scripts/ultrawidelock_smp.py:158-225 | two keys are one if and only if they are equal, or one is true or false and the other 1 or 0 |
| CborLaw.LastValueWins | scripts/ultrawidelock_smp.py:158-225 | anywhere in a buffer, a counted map with any keys repeated is read, and every key finds the last value given to it |
| CborLaw.EncodesIff | scripts/ultrawidelock_smp.py:124-156 | a value is encoded if and only if no number in it is null, negative or past 32 bits, and no length or count is |
| CborRoundTrip.RoundTrip | scripts/ultrawidelock_smp.py:124-225 | anywhere in a buffer, decoding an encoded value gives the value and its exact end, nested to any depth |
| CborRoundTrip.DecodeSpelling | scripts/ultrawidelock_smp.py:158-225 | every spelling of a value, with any lists and maps left open, decodes to it and to its exact end |
| CborRoundTrip.EncodeIsPlain | scripts/ultrawidelock_smp.py:124-156 | the encoder writes the definite-length spelling of its value |
| CborRoundTrip.Unambiguous | scripts/ultrawidelock_smp.py:158-225 | no spelling begins another with a different meaning |
| ClientSchedule.Backoffed | modules/ultrawidelock_matter/src/matter_client_sm.c:23-37 | the doubling loop computes the backoff, doubled per failure from 1 s and capped at 60 s |
| ClientSchedule.BackoffMs | modules/ultrawidelock_matter/src/matter_client_sm.c:23-37 | a backoff is between 1 s and 60 s; `ScheduleRuns.BackoffIsWait` says which |
| ScheduleRuns.BackoffIsWait | modules/ultrawidelock_matter/src/matter_client_sm.c:23-37 | the wait is 1 s after the first failure, twice as long after each further one, and never more than a minute |
| ScheduleRuns.AttemptsAreStreak | modules/ultrawidelock_matter/src/matter_client_sm.c:186-233 | in every run the count is the failures since the last session established or command accepted, up to 255 |
| ScheduleRuns.StreakWaits | modules/ultrawidelock_matter/src/matter_client_sm.c:76-145 | after every run that ends in a failure, a poll starts something if and only if the wait of its streak is over and something is still wanted: a handshake if the latest lookup found the peer, else a lookup |
| ScheduleRuns.WantIsWish | modules/ultrawidelock_matter/src/matter_client_sm.c:39-74 | in every run a wish is pending if and only if one was made since the last command was answered, either way, and no poll has found it 8 s old |
| ScheduleRuns.StepGivesUp | modules/ultrawidelock_matter/src/matter_client_sm.c:110-165 | a handshake message is given up on five seconds after it was sent, and not before |
| ScheduleRuns.Sigma2Extends | modules/ultrawidelock_matter/src/matter_client_sm.c:167-176 | a Sigma2 that is awaited gives five seconds more; any other changes nothing |
| ScheduleRuns.LookupGivesUp | modules/ultrawidelock_matter/src/matter_client_sm.c:84-110 | a lookup is given up on after five seconds or when the wish behind it lapses, whichever is first |
| MatterSafety.PollShape | modules/ultrawidelock_matter/src/matter_client_sm.c:76-145 | which phase each action of the schedule can come from, and that a want is only ever lost by expiring or failing |
| MatterSafety.NoLostEdge | apps/dwm3001cdk-lock/src/matter_client.c:1041-1322 | over every interleaving, the walk-up path's single writes included, a bolt that differs from what the peer agreed to, with no rearm and no wish still to be compared, has its want recorded or an attempt has failed, been refused or expired since the last want; an invoke in flight has its want |
| MatterWant.WantSurvivesIff | modules/ultrawidelock_matter/src/matter_client_sm.c:62-74 | whatever the work queue does between the two writes of a want, it stands with its own time after the second if and only if no poll in between found it expired by the time before |
| MatterWant.PollWant | modules/ultrawidelock_matter/src/matter_client_sm.c:46-51 | a poll takes a want away exactly by finding it expired |
| MatterReach.WantCanBeDropped | apps/dwm3001cdk-lock/src/matter_client.c:1055-1063 | with any tables, the first want of a client that has been up for 8 s can be dropped by a poll between its two writes |
| MatterSafety.SyncedMeansUnlockedIff | apps/dwm3001cdk-lock/src/matter_client.c:1065-1322 | over every interleaving: synced implies that the last accepted command was UnlockDoor with no rearm since, if and only if no rearm ended between the read and the write of the last UnlockDoor accepted; and rearm implies not synced unless it did, or is between its own two writes |
| MatterSafety.ResponseTruthfulIff | apps/dwm3001cdk-lock/src/matter_client.c:1298-1306 | a response taken up in any reachable state, with any events of other threads before its write, leaves the flag truthful if and only if it read a rearm, answers a LockDoor, or no rearm came to its second write in between |
| MatterReach.RearmCanBeLost | apps/dwm3001cdk-lock/src/matter_client.c:1306-1306 | every table with a usable target has a run that ends with rearm and synced both set, and the next want not recorded |
| MatterSafety.SessionHasFabric | apps/dwm3001cdk-lock/src/matter_client.c:298-400 | handshake, session or linger implies a chosen fabric, linger implies a session, the schedule is READY exactly with an established session, and an ephemeral key is held only while its Sigma1 is unanswered |
| MatterSafety.HeldOnTheWire | apps/dwm3001cdk-lock/src/matter_client.c:356-536 | with fabrics removed or slots reused between any two entry points, and polls between routing and handling, every Sigma1, Sigma3, resend and TimedRequest uses a slot then held under the recorded fabric id |
| MatterRouting.RoutedSigma2Iff | apps/dwm3001cdk-lock/src/matter_client.c:1107-1151 | a readable Sigma2 is handled with no fabric if and only if the last poll between its routing and its handling found the fabric gone and picked no other; otherwise a handling that uses the fabric uses a held slot |
| MatterRouting.PollFabric | apps/dwm3001cdk-lock/src/matter_client.c:875-930 | a poll leaves no fabric exactly if it found none held and picked none |
| MatterReach.Sigma2CanLoseItsFabric | apps/dwm3001cdk-lock/src/matter_commission.c:4243-4247 | every table with a usable target has a run in which a Sigma2 is handled with no fabric |
| MatterSafety.OneSessionPerSigma1 | apps/dwm3001cdk-lock/src/matter_client.c:1091-1218 | each Sigma1 leads to at most one establishment, however often reports repeat |
| MatterHandshake.Sigma3Answers | apps/dwm3001cdk-lock/src/matter_client.c:547-690 | in every run a Sigma3 goes out only to a good Sigma2 made for the Sigma1 that went out last, while its key is held |
| MatterHandshake.ResendsLatest | apps/dwm3001cdk-lock/src/matter_client.c:368-386 | in every run whatever is resent is the handshake message sent last |
| MatterHandshake.KeepsLatest | apps/dwm3001cdk-lock/src/matter_client.c:368-386 | while a Sigma2 is awaited the Sigma1 sent last is kept, and while the report is, its Sigma3, unless that was too long to keep |
| MatterHandshake.RepeatedSigma2 | apps/dwm3001cdk-lock/src/matter_client.c:1091-1218 | while the report is awaited a Sigma2 is answered with the Sigma3 again if and only if it carries the counter of the one answered, and nothing else happens |
| MatterHandshake.EstablishedIff | apps/dwm3001cdk-lock/src/matter_client.c:1091-1218 | in every run a step establishes a session if and only if it handles a report of success for a handshake with its Sigma3 out and its fabric held |
| MatterHandshake.HandshakeEnds | apps/dwm3001cdk-lock/src/matter_client.c:1091-1218 | any other report ends the handshake and backs off, and a message for a lost fabric ends it and forgets the fabric |
| MatterHandshake.RoutedIff | apps/dwm3001cdk-lock/src/matter_client.c:1076-1089 | a message is routed to the client exactly when nothing is being worked on and its exchange is the client's |
| MatterHandshake.ListensThreeSeconds | apps/dwm3001cdk-lock/src/matter_client.c:1076-1218 | an established session listens on its handshake's exchange for three seconds, and a millisecond longer where the clock would then be zero |
| MatterSafety.InvokesAreFresh | apps/dwm3001cdk-lock/src/matter_client.c:845-930 | a TimedRequest goes out only for a want less than 8 s old |
| MatterSafety.ChosenIsHeld | apps/dwm3001cdk-lock/src/matter_client.c:298-360 | a chosen target's fabric is held, and a target is chosen exactly if some bound one is usable |
| MatterTarget.SlotIff | apps/dwm3001cdk-lock/src/matter_client.c:275-287 | an index names the first slot that carries it, and 0 names none |
| MatterTarget.HeldIff | apps/dwm3001cdk-lock/src/matter_client.c:356-366 | a slot is held if and only if it is the one its index names, holds a credential and belongs to the fabric recorded |
| MatterTarget.ChoosesFirst | apps/dwm3001cdk-lock/src/matter_client.c:298-354 | the first binding whose fabric is held and derives keys is chosen, with its own node, and its endpoint or 1 |
| MatterTarget.ChoosesNone | apps/dwm3001cdk-lock/src/matter_client.c:298-354 | if no binding can be served none is chosen and nothing changes |
| MatterTarget.CommandsGoWhereBound | apps/dwm3001cdk-lock/src/matter_client.c:298-790 | in every run, whatever becomes of the tables, a command goes to a node and endpoint that some binding of the run named together |
| MatterSafety.NextKeeps | apps/dwm3001cdk-lock/src/matter_client.c:845-1322 | every event at every moment keeps all of the client's invariants |
| MatterReach.CanUnlock | apps/dwm3001cdk-lock/src/matter_client.c:845-1322 | from every table with a usable target some run establishes one session, sends UnlockDoor and has it accepted, and client and peer then agree |
| MatterReach.CanRelock | apps/dwm3001cdk-lock/src/matter_client.c:845-1322 | and some run then has LockDoor accepted over the same session |
| MatterCommand.CommandsAreWishes | apps/dwm3001cdk-lock/src/matter_client.c:743-794 | in every run every command sent is UnlockDoor if the bolt was wanted unlocked when it was framed and LockDoor if not, to the target then chosen, and the command in flight is the last one sent |
| MatterCommand.AcceptedWasSent | apps/dwm3001cdk-lock/src/matter_client.c:1226-1322 | in every run an accepted response to a command in flight is logged as the command that was sent |
| MatterOutcomes.LookupOutcome | apps/dwm3001cdk-lock/src/matter_client.c:855-875 | a lookup's answer is taken once, and only by an attempt that is looking up |
| MatterOutcomes.ResolveOutcome | apps/dwm3001cdk-lock/src/matter_client.c:810-843 | a lookup starts if a binding can be served and the resolver takes it, and otherwise the attempt backs off |
| MatterOutcomes.Sigma1Outcome | apps/dwm3001cdk-lock/src/matter_client.c:466-536 | a Sigma1 leaves if and only if there is a peer with an address, entropy was drawn and the send succeeded; otherwise the attempt backs off |
| MatterOutcomes.InvokeOutcome | apps/dwm3001cdk-lock/src/matter_client.c:720-741 | a TimedRequest leaves over a session; one that cannot be sent ends it, and without one the client starts over |
| MatterOutcomes.WalkOutcome | apps/dwm3001cdk-lock/src/matter_client.c:1041-1063 | undisturbed, a walk-up asks for its wish exactly when the peer is not known to hold it, and a wish to unlock takes a rearm back |
| MatterOutcomes.RearmIsPending | apps/dwm3001cdk-lock/src/matter_client.c:1041-1069 | in every run the rearm flag says whether the latest call that touched it was a rearm |
| MatterOutcomes.WindowOutcome | apps/dwm3001cdk-lock/src/matter_client.c:1262-1296 | refused, the wish is dropped and the session stays; granted, the wish of that moment goes out, or the session ends if it cannot be framed |
| MatterOutcomes.AnswerOutcome | apps/dwm3001cdk-lock/src/matter_client.c:1296-1322 | undisturbed, a refusal drops the wish and nothing else; an acceptance records what was sent unless a rearm is pending, forgets the failures, and asks again at once if the bolt has moved |
| MatterClient.Client.constructor | apps/dwm3001cdk-lock/src/matter_client.c:1007-1039 | initialising forgets everything |
| MatterClient.Client.FabricOf | apps/dwm3001cdk-lock/src/matter_client.c:275-287 | the loop finds the first slot with the index, and index 0 names nobody |
| MatterClient.Client.FabricStillHeld | apps/dwm3001cdk-lock/src/matter_client.c:356-360 | the slot is the one its index names, holds a certificate, and still has the recorded id |
| MatterClient.Client.ChooseTarget | apps/dwm3001cdk-lock/src/matter_client.c:298-340 | the loop picks the first usable target and changes nothing without one |
| MatterClient.Client.DropSession | apps/dwm3001cdk-lock/src/matter_client.c:388-400 | session, handshake, linger, kept message and invoke are gone together, and READY becomes IDLE |
| MatterClient.Client.SendSigma1Message | apps/dwm3001cdk-lock/src/matter_client.c:466-536 | refines sending a Sigma1, whatever fails on the way |
| MatterClient.Client.ApplyLookup | apps/dwm3001cdk-lock/src/matter_client.c:854-873 | an answer counts only while it is waited for |
| MatterClient.Client.CheckFabric | apps/dwm3001cdk-lock/src/matter_client.c:876-888 | a lost fabric takes its session and handshake with it |
| MatterClient.Client.Perform | apps/dwm3001cdk-lock/src/matter_client.c:907-947 | refines each action the schedule asks for |
| MatterClient.Client.ResendOrGiveUp | apps/dwm3001cdk-lock/src/matter_client.c:964-992 | refines the handshake's retransmission |
| MatterClient.Client.FinishPoll | apps/dwm3001cdk-lock/src/matter_client.c:907-999 | refines the poll past an interaction in flight, and abandons a handshake the schedule gave up |
| MatterClient.Client.Poll | apps/dwm3001cdk-lock/src/matter_client.c:845-1003 | refines the whole poll: state, wire and establishments |
| MatterClient.Client.WantUnlocked | apps/dwm3001cdk-lock/src/matter_client.c:1041-1063 | refines recording a want, its writes in turn |
| MatterClient.Client.RearmUnlock | apps/dwm3001cdk-lock/src/matter_client.c:1065-1069 | refines a rearm, its writes in turn |
| MatterClient.Client.HandleSigma2 | apps/dwm3001cdk-lock/src/matter_client.c:1128-1151 | refines a Sigma2, first or repeated, readable or not, with a fabric or without |
| MatterClient.Client.HandleReport | apps/dwm3001cdk-lock/src/matter_client.c:1152-1217 | refines a StatusReport, first or repeated |
| MatterClient.Client.Owns | apps/dwm3001cdk-lock/src/matter_client.c:1076-1089 | an exchange is the client's while its handshake is outstanding, or lingers |
| MatterClient.Client.OnUnsecured | apps/dwm3001cdk-lock/src/matter_client.c:1091-1224 | refines any unsecured message, the fabric looked at again only where one is recorded |
| MatterClient.Client.OnStatusResponse | apps/dwm3001cdk-lock/src/matter_client.c:1263-1291 | refines the answer to the TimedRequest; `MatterCommand.CommandsAreWishes` says which command then goes out and `MatterOutcomes.WindowOutcome` what else comes of it |
| MatterClient.Client.OnInvokeResponse | apps/dwm3001cdk-lock/src/matter_client.c:1292-1333 | refines the answer to the command: flag read, flag written, want cleared, bolt rechecked |
| WitnessStanding.WindowsRestOnFreshPairs | apps/dwm3001cdk-lock/src/witness_link.c:255-397 | in every run, whatever interleaves, each window rests on an accepted inside and an accepted outside report at most 4000 ms old and says of them what they said |
| WitnessStanding.FlagHonestIff | apps/dwm3001cdk-lock/src/witness_link.c:390-392 | in every run, a window lacks the degraded flag exactly when both reports echoed the challenge in force, if and only if, should both have passed their compares, a new challenge was written since one of them exactly when a roll swept one of the slots between the store of its standing and its being read |
| WitnessStanding.UndegradedIff | apps/dwm3001cdk-lock/src/witness_link.c:390-505 | in every run, a window without the flag rests on two reports that echoed the nonzero challenge in force if and only if neither escaped a roll, by its sweep coming before the store or not yet by the read |
| WitnessStanding.ApartMeansHonest | apps/dwm3001cdk-lock/src/witness_link.c:128-155 | where no roll and no report are ever under way together, the flag of every window is honest |
| WitnessRuns.OvertakenOpens | apps/dwm3001cdk-lock/src/witness_link.c:505-505 | for any two different challenges, a roll between the compare and the store of an outside report leads to a window without the flag that rests on the retired challenge |
| WitnessRuns.UnderWayOpens | apps/dwm3001cdk-lock/src/witness_link.c:134-143 | the same of a roll that has written the challenge and not yet swept the slot |
| WitnessRuns.SweptAfterwards | apps/dwm3001cdk-lock/src/witness_link.c:134-143 | a report that echoed the new challenge can lose its standing to the sweep of that challenge's own roll |
| WitnessStanding.ChallengeIsCurrent | apps/dwm3001cdk-lock/src/witness_link.c:255-397 | a step publishes at most one window, under the challenge in force when its flag was decided |
| WitnessStanding.EachReportOnce | apps/dwm3001cdk-lock/src/witness_link.c:394-396 | in every run, whatever interleaves, each accepted report feeds at most one window |
| WitnessStanding.CompletedPairIsPublished | apps/dwm3001cdk-lock/src/witness_link.c:487-511 | whatever the main loop does meanwhile, a report that completes a fresh pair is published with it and both are used up |
| WitnessWindows.PublishedTells | apps/dwm3001cdk-lock/src/witness_link.c:255-397 | in every run, whatever interleaves, a step publishes nothing or one window more: numbered, dated by the report accepted last, with the distance last measured, the newest unused inside and outside reports, both at most 4 s old, and the newest threshold report if it is |
| WitnessWindows.ReceivePublishesIff | apps/dwm3001cdk-lock/src/witness_link.c:399-511 | after every run, a datagram worked through undisturbed is taken or changes nothing, and a window is published if and only if a label is picked and the newest inside and outside reports are then both unused and at most 4 s old |
| WitnessWindows.RollsIff | apps/dwm3001cdk-lock/src/witness_link.c:605-657 | in every run the loop turns to a new challenge if and only if a session begins or ends, or a tick finds the challenge of a session its period old |
| WitnessReplay.AcceptedIff | apps/dwm3001cdk-lock/src/witness_link.c:432-500 | in every reachable state with the callback at rest, a datagram is accepted if and only if an enrolled key opens it and it is a report of an enrolled role, newer than the last accepted from it |
| WitnessReplay.CountersGrow | modules/ultrawidelock_anchor/src/ultrawidelock_witness_msg.c:179-203 | in every run, of two accepted reports of one role and boot with none of that role between them the later has the larger counter |
| WitnessReplay.ReplayNeedsReboot | modules/ultrawidelock_anchor/src/ultrawidelock_witness_msg.c:179-203 | in every run the same report is accepted twice only if one of another boot was in between |
| WitnessLink.StepKeeps | apps/dwm3001cdk-lock/src/witness_link.c:128-511 | every single access of the receive callback and of a roll keeps the invariant |
| WitnessLink.WholeRoll | apps/dwm3001cdk-lock/src/witness_link.c:128-144 | the single accesses of an undisturbed roll, zeros drawn again included, add up to one roll |
| WitnessNode.Node.constructor | apps/dwm3001cdk-lock/src/witness_link.c:518-590 | a slot per role, keys where enrolled, a first challenge |
| WitnessNode.Node.Draw | apps/dwm3001cdk-lock/src/witness_link.c:134-136 | the loop draws until the challenge is not zero |
| WitnessNode.Node.NonceRoll | apps/dwm3001cdk-lock/src/witness_link.c:128-155 | the loop retires the standing of every kept report |
| WitnessNode.Node.PublishPair | apps/dwm3001cdk-lock/src/witness_link.c:255-397 | refines publishing a pair |
| WitnessNode.Node.Unseal | apps/dwm3001cdk-lock/src/witness_link.c:432-440 | the loop finds an enrolled key that opens the datagram exactly if there is one |
| WitnessNode.Node.StoreReport | apps/dwm3001cdk-lock/src/witness_link.c:497-505 | an accepted report replaces its role's and is judged against the challenge |
| WitnessNode.Node.LinkRx | apps/dwm3001cdk-lock/src/witness_link.c:399-511 | refines receiving a datagram; `WitnessReplay.AcceptedIff` says which are taken and `WitnessWindows.ReceivePublishesIff` what comes of it |
| WitnessNode.Node.SessionEdge | apps/dwm3001cdk-lock/src/witness_link.c:605-635 | refines a session edge |
| WitnessNode.Node.TickAt | apps/dwm3001cdk-lock/src/witness_link.c:637-657 | refines the tick |
| Grant.Granter.constructor | apps/dwm3001cdk-lock-freertos/src/grant.c:16-32 | everything at the generation given, nothing granted |
| Grant.Granter.TakeRange | apps/dwm3001cdk-lock-freertos/src/grant.c:47-70 | refines feeding, observing and ticking |
| Grant.Granter.Apply | apps/dwm3001cdk-lock-freertos/src/grant.c:74-100 | refines acting on the controller's answer |
| Grant.Granter.WatchSession | apps/dwm3001cdk-lock-freertos/src/grant.c:110-134 | refines the session edge and the departure fallback |
| Grant.Granter.Step | apps/dwm3001cdk-lock-freertos/src/grant.c:34-147 | refines the whole pass: context, output and calls |
| Grant.EachGenerationOnce | apps/dwm3001cdk-lock-freertos/src/grant.h:30-50 | with any controller and generations that never return, none is fed twice, observed twice, or observed after it was fed |
| GrantCalls.CallsMade | apps/dwm3001cdk-lock-freertos/src/grant.c:34-134 | after every run with generations that never return, told from the inputs alone: a pass feeds a range found trusted for the first time, else observes a new raw one, else only ticks, and then passes on the session's rising edge and the departure of a credential whose session ended |
| GrantCalls.RangingIff | apps/dwm3001cdk-lock-freertos/src/grant.c:134-147 | the ranging lamp is lit exactly in the second after the last change of generation |
| GrantCalls.Reports | apps/dwm3001cdk-lock-freertos/src/grant.c:74-134 | in every run a pass reports the bolt as it leaves it, an edge exactly when it moves or a departure closes one just opened, and a fallback exactly when one closes it |
| Grant.TrustedIsFed | apps/dwm3001cdk-lock-freertos/src/grant.c:42-51 | every generation but the first that is ever found trusted is fed |
| Grant.BoltIsGranted | apps/dwm3001cdk-lock-freertos/src/grant.c:74-134 | a caller that applies only the edges always holds a bolt equal to granted |
| Grant.ControllerMovesBolt | apps/dwm3001cdk-lock-freertos/src/grant.c:74-100 | while the session lasts the bolt does what the controller says and nothing else moves it |
| Grant.GrantedNeedsSession | apps/dwm3001cdk-lock-freertos/src/grant.c:115-134 | present and granted after a pass implies the session was active in it, and a session's end with a credential present closes the bolt |
| LoopCarry.OneOwner | apps/dwm3001cdk-lock/src/main.c:1066-1112 | over every run the latch's open session is exactly the loop's credential, and no session is opened over another or closed twice |
| LoopCarry.SurvivesIff | apps/dwm3001cdk-lock/src/main.c:1066-1112 | for every history, a credential named after a gap finds its session still open if and only if it owned it and no pass came more than 30 s into the gap, measured from its first pass at a clock other than zero |
| LoopCarry.AfterGap | apps/dwm3001cdk-lock/src/main.c:1079-1096 | for every history, what the latch holds at every pass of a gap |
| LoopCarry.LinkFollowsCredential | apps/dwm3001cdk-lock/src/main.c:1066-1112 | the witness link is told a session is up exactly while a credential is named, but for a return from a gap spent at clock zero |
| LoopCarry.GoneIsRelockedOrHeld | apps/dwm3001cdk-lock/src/main.c:1516-1580 | after every pass that finds the session gone the bolt is closed, or a hold judged in this gap is running and not 10 s old |
| LoopCarry.HoldHasStart | apps/dwm3001cdk-lock/src/main.c:1516-1536 | a running hold was judged once, on fresh evidence, at a pass since which the session has been gone |
| LoopCarry.ThroughGap | apps/dwm3001cdk-lock/src/main.c:1516-1580 | through a quiet gap of any length the bolt stays open if and only if it was open, the first pass found fresh evidence of a flap, and no pass came more than 10 s later; otherwise it is closed and the credential forgotten |
| LoopCarry.PassRules | apps/dwm3001cdk-lock/src/main.c:1511-1580 | after every history: with a session, or nobody there, the decision stands; a session found gone relocks or starts a hold if the last range is at most 3 s old, inside the relock distance, and the session did not close in good order; and a hold keeps the decision until it is more than 10 s old |
| LoopCarry.JudgedOnce | apps/dwm3001cdk-lock/src/main.c:1511-1536 | the evidence of later passes changes nothing, and the first pass past 10 s relocks |
| LoopCarry.ReaderLoop.FollowCredential | apps/dwm3001cdk-lock/src/main.c:1066-1112 | refines the latch part of a pass, with what the witness link is told |
| LoopCarry.ReaderLoop.Fallback | apps/dwm3001cdk-lock/src/main.c:1516-1580 | refines the hold and fallback part of a pass |
| Movement.MovementFilter.Update | apps/dwm3001cdk-lock/src/uwb_matter_presence.c:60-103 | the filter updated in place reports what the velocities since the reset call for, as `Movement.ChangesIff` says |
| Movement.MovementFilter.Reset | apps/dwm3001cdk-lock/src/uwb_matter_presence.c:53-58 | a reset forgets the samples |
| Movement.ChangesIff | apps/dwm3001cdk-lock/src/uwb_matter_presence.c:60-103 | with clocks that do not run back, the report changes to a state if and only if it was another, at least two velocities in a row that end there speak for it (20 cm/s or more, -20 or less, or within 8 of rest), over 500 ms for rest, and the last hold is over |
| Movement.ChangeEndsRun | apps/dwm3001cdk-lock/src/uwb_matter_presence.c:84-101 | a change ends at least two velocities in a row that speak for the new state, over 500 ms for rest |
| Movement.ChangesApart | apps/dwm3001cdk-lock/src/uwb_matter_presence.c:95-101 | any two changes between resets are at least 300 ms apart |
| Movement.RunIsMaximal | apps/dwm3001cdk-lock/src/uwb_matter_presence.c:84-91 | the run counted is the longest one that ends with the sample |
| StatusLed.Run | apps/dwm3001cdk-lock/src/status_led.c:123-172 | in every reachable state a tick is to come, or what the tick has done so far is right for the signals as they are |
| StatusLed.PendingOrSettled | apps/dwm3001cdk-lock/src/status_led.c:123-172 | with signals between any two accesses of a tick, a tick or signal is pending or under way, or every ready lamp shows the level its pattern has in all 16 slots |
| StatusLed.PlaysPattern | apps/dwm3001cdk-lock-freertos/src/status_led.c:168-190 | undisturbed ticks from phase 0 play each pattern most significant bit first and keep themselves scheduled while one moves |
| LedShows.SettledShows | apps/dwm3001cdk-lock-freertos/src/status_led.c:134-190 | after every interleaving of calls and ticks, once no tick is to come every ready lamp shows what the calls ask for in every slot |
| LedShows.ChangePlays | apps/dwm3001cdk-lock-freertos/src/status_led.c:134-221 | a call that changes a signal restarts the cycle, and the tick of each slot then drives every ready lamp to what all the calls ask for in that slot, lamp by lamp and slot by slot |
| LedShows.StartPlays | apps/dwm3001cdk-lock-freertos/src/status_led.c:264-282 | from start-up the lamps play what no call at all asks for |
| LedShows.SignalsAsserted | apps/dwm3001cdk-lock-freertos/src/status_led.c:192-200 | in every run a signal is asserted exactly when the latest call that named it asserted it |
| LedShows.TickGoesOnIff | apps/dwm3001cdk-lock-freertos/src/status_led.c:168-190 | a tick schedules the next exactly when what the calls ask for blinks |
| LedShows.SettledStays | apps/dwm3001cdk-lock-freertos/src/status_led.c:159-167 | once settled, nothing but a signal call wakes the display |
| LedShows.UnreadyStaysDark | apps/dwm3001cdk-lock-freertos/src/status_led.c:175-182 | in every run a lamp that was never brought up stays dark |
| StatusLed.StaticIff | apps/dwm3001cdk-lock/src/status_led.c:130-137 | a pattern has one level in all sixteen slots if and only if it is dark or solid |
| StatusLed.WholeTick | apps/dwm3001cdk-lock/src/status_led.c:123-145 | the single accesses of an undisturbed tick add up to one frame |
| StatusLed.Leds.constructor | apps/dwm3001cdk-lock-freertos/src/status_led.c:264-282 | lamps dark, first tick scheduled |
| StatusLed.Leds.Tick | apps/dwm3001cdk-lock-freertos/src/status_led.c:168-190 | the loop drives every ready lamp, advances the phase and reschedules exactly if something moves |
| StatusLed.Leds.Signal | apps/dwm3001cdk-lock-freertos/src/status_led.c:192-221 | a change of signals restarts the cycle; no change does nothing |
| StackDepth.Walker.Visit | scripts/cdk-stack-depth.py:80-93 | the recursive walk over shared memo and path terminates and refines the pure walk |
| StackDepth.LowerBound | scripts/cdk-stack-depth.py:76-95 | on every graph the result is a simple path of real calls from the root whose frames add up to the bytes |
| StackDepth.Maximal | scripts/cdk-stack-depth.py:76-95 | with no recursion below the root the figure bounds every call path |
| StackDepth.BoundsIff | scripts/cdk-stack-depth.py:76-95 | for every graph, a figure bounds the call paths if and only if loops cost nothing and it bounds the simple paths |
| StackDepth.RootLoopsMaximal | scripts/cdk-stack-depth.py:76-95 | where every loop below the root passes through the root, the figure bounds every simple path, and every call path if and only if the loops cost nothing |
| StackDepth.MaximalIff | scripts/cdk-stack-depth.py:76-95 | where every loop below the root costs a byte, the figure bounds every path if and only if there is no loop |
| StackDepth.FreeLoopsUnderReport | scripts/cdk-stack-depth.py:81-84 | a graph whose loops cost nothing, with a simple path deeper than the figure |
| StackDepth.RecursionUnderReports | scripts/cdk-stack-depth.py:81-84 | a recursive graph with a simple path deeper than the figure |
| Verhoeff.CheckDigit | web/flasher/check_codes.py:116-121 | the table loop computes the fold in the dihedral group |
| Verhoeff.MulIsD5 | scripts/spake2p_verifier.py:106-112 | the multiplication table is the dihedral group of the pentagon |
| Verhoeff.NextPerm | scripts/spake2p_verifier.py:113-118 | each permutation is the first applied to the one before it, around all eight |
| Verhoeff.Inverse | scripts/spake2p_verifier.py:119-119 | the inverse table inverts |
| Verhoeff.CodedIff | scripts/spake2p_verifier.py:135-138 | a string ends in its check digit if and only if the whole of it folds to zero |
| Verhoeff.SingleErrorCaught | scripts/spake2p_verifier.py:102-138 | any change of one digit of a coded string of any length is caught |
| Verhoeff.SwapCaught | scripts/spake2p_verifier.py:102-138 | any swap of unequal neighbours is caught, the last digit with the check digit included |
| Base38.RoundTrip | web/flasher/check_codes.py:124-133 | an explicit decoder takes back every byte string |
| Base38.Injective | web/flasher/check_codes.py:124-133 | no two byte strings share their text |
| Base38.EncodeText | web/flasher/check_codes.py:124-133 | the loop over chunks computes the encoding |
| Base38.ChunkText | web/flasher/check_codes.py:130-132 | the inner loop writes a number in base 38, least significant first |
| PairingCodes.ToolsAgreeIff | web/flasher/check_codes.py:159-168 | the two implementations print the same code if and only if the passcode has at most 27 bits, for every discriminator |
| PairingCodes.PrintManualCode | scripts/spake2p_verifier.py:122-138 | the code is the padded fields and their check digit |
| PairingCodes.CodeParts | scripts/spake2p_verifier.py:122-138 | the code of a 27-bit passcode has eleven digits, carries its check digit, and is cut where the reader cuts it |
| PairingCodes.DecodeRecovers | scripts/ultrawidelock-enroll.py:87-110 | reading a code, however grouped, recovers the passcode and the discriminator's top four bits |
| ManualReading.PrintedReads | scripts/ultrawidelock-enroll.py:87-110 | the code printed in groups of four, three and four is read back as the passcode and the discriminator's top four bits |
| ManualReading.ReadsBackIff | scripts/ultrawidelock-enroll.py:87-110 | any eleven digits are read as a 27-bit passcode and four bits of discriminator, and printing those gives the digits back if and only if the last is their check digit and none of the three numbers is out of range |
| PairingCodes.PackFields | web/flasher/check_codes.py:143-155 | the packing loop puts each masked field above the ones before |
| PairingCodes.QrRecovers | web/flasher/check_codes.py:136-156 | every field can be read back from the payload's text |
| PairingCodes.QrReadsBack | web/flasher/check_codes.py:136-156 | read from the text, cut at 3, 16, 16, 2, 8, 12, 27 and 4 bits, the payload is 0, vendor, product, 0, rendezvous, discriminator, passcode and 0 |
| PairingCodes.QrInjective | web/flasher/check_codes.py:136-156 | two payloads of fields in range are equal only if the fields are |
| PairingCodes.QrIsWholeBytes | web/flasher/check_codes.py:143-155 | the setup payload's fields fill eleven bytes |
| Curve.AddKeepsCurve | scripts/spake2p_verifier.py:41-64 | the sum of two points of the curve is a point of the curve with reduced coordinates, Fermat's little theorem taken as given; which point, `CurveLaw.SumLaw` and `CurveLaw.SumIsTheOnly` say |
| CurveLaw.SumLaw | scripts/spake2p_verifier.py:49-64 | of two points that do not cancel, the mirror image of the sum lies on their line, chord or tangent, and the three x add up to the square of its slope |
| CurveLaw.SumIsTheOnly | scripts/spake2p_verifier.py:49-64 | and no other point with reduced coordinates does |
| CurveLaw.CancelsIff | scripts/spake2p_verifier.py:49-58 | infinity is the identity, and two points add up to it if and only if one is the mirror image of the other |
| CurveLaw.Commutes | scripts/spake2p_verifier.py:49-64 | the order of the two does not matter |
| Curve.Inverts | scripts/spake2p_verifier.py:60-62 | `pow(a, p - 2, p)` inverts every residue but zero, Fermat's little theorem taken as given |
| Curve.ThirdPoint | scripts/spake2p_verifier.py:59-64 | the integer identity by which the third point misses the curve only as far as the first point and the slope do |
| Curve.ChordSlope | scripts/spake2p_verifier.py:62-62 | the chord's slope is right wherever the run can be inverted |
| Curve.TangentSlope | scripts/spake2p_verifier.py:60-60 | the tangent's slope is right wherever 2y can be inverted |
| Curve.DoubleAndAdd | scripts/spake2p_verifier.py:67-75 | the loop computes the double-and-add of any operation |
| Curve.LadderIsTimes | scripts/spake2p_verifier.py:67-75 | for any associative operation with an identity that is the k-fold sum |
| Curve.MultipleIsTimes | scripts/spake2p_verifier.py:67-75 | the multiple of a point of the curve is the (k mod N)-fold sum, for every integer k, and is on the curve |
| Curve.BaseOnCurve | scripts/spake2p_verifier.py:35-46 | the base point is on P-256 |
| Curve.VerifierOnCurve | scripts/spake2p_verifier.py:93-95 | every multiple of the base point that `mul` returns is on P-256 |
| Curve.Multiply | scripts/spake2p_verifier.py:67-75 | for every scalar and every point, on the curve or not: the double-and-add of k mod N, infinity where that is 0, and the (k mod N)-fold sum on the curve |

## Left out

- Bluetooth, WebSerial, scanning, choosers and timers: input and output only; timeouts are events.
- Cryptography (AES-CCM, ECDSA, SHA-256, PBKDF2, CASE key derivation): whether a step of it succeeds is a choice of the event.
- The Python twin of the serial framer: it differs at a declared length of 1, which serial.js rejects and it does not; serial.js is modelled. Its base64 decoder is strict, where `atob` is forgiving.
- The serial reassembly buffer before a length has been read is not bounded by the code, and no bound is stated.
- CborRoundTrip.DecodeSpelling: the Python codec is modelled; its JavaScript twin writes an array as a map of index keys and turns every decoded key into a string.
- CborRoundTrip.RoundTrip: text is held as its UTF-8 bytes, so the decoder's rejection of malformed UTF-8 is not modelled.
- DfuStaging.Staging.Write: a flash operation that fails is modelled as changing nothing, because what a failed write leaves behind is the part's business.
- DfuReceiver.Receiver.TakeChunk: a chunk that takes the cursor to 2^32 is shut out, as for RxUpload.
- DfuReceiver.Receiver.RxUpload: a chunk at the cursor that takes it to 2^32 is shut out, so the wrap of the 32-bit cursor is not modelled; it takes four gigabytes behind the patch. Every other offset is covered.
- DfuSession.Session.Push: the minimum file size, the negotiated MTU and the printed progress are not modelled; the deadline for the window is a number of refusals.
- SmpUpload.FinishedMeansStaged: one uploader at a time, because the protocol carries no transfer id.
- MatterSafety.NoLostEdge: the want recorded by a response's recheck, which holds the lock, is one step; the compare of a wish with the synced flag and the first write of its want are one step.
- MatterSafety.HeldOnTheWire: an InvokeRequest is not covered, because `matter_client_on_secure` does not look at the fabric again; tables change between entry points and not inside one; nothing is said of a client after it has followed a null fabric.
- MatterRouting.RoutedSigma2Iff: that a Sigma2 opens only with the ephemeral key of the Sigma1 it answers is taken from the cryptography.
- ClientSchedule: when the next poll is due (`matter_client_sm_next_ms`, `next_wake_ms`) is not modelled; polls come at any time.
- WitnessStanding.UndegradedIff: a read and a write of the eight-byte challenge are each one access, and the compare reads it once although the source names it twice.
- WitnessLink: the picker, the second anchor's reports and the sending of challenges.
- Grant: the approach controller is arbitrary.
- StatusLed.PendingOrSettled: `status_led_boot_blink` and the active-low wiring are not modelled.
- Curve.AddKeepsCurve: Fermat's little theorem for the field prime is a hypothesis, stated of plain powers.
- Curve.Multiply: associativity of the group law is a hypothesis.
- StackDepth: reading frame sizes and calls out of a disassembly.
- CborLaw.LastValueWins: a map whose length is left open is covered where its keys differ, by CborRoundTrip.DecodeSpelling.
- PairingCodes.DecodeRecovers: characters other than 0 to 9 that Python also calls digits are not modelled.
- The approach controller, the side filter, the door latch's own evidence, provisioning, benches, size reports and drift gates: not modelled.
