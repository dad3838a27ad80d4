# PCUTP model

PCUTP moves files from a gateway (the sender, `src/pcutp/server.py`) to a handheld (the receiver, `src/pcutp/client.py`,
and its BASIC twin `picocalc/PCUTP.BAS`) over a three-wire serial line that loses and damages bytes. This project models
the parts of it that are hard to get right and proves what they promise.

Verify everything with `dafny verify dfyconfig.toml`.

## What is modelled

- **The FLOW=1 transfer** (`Transfer.dfy`). Sender and receiver are two machines, the line between them two queues of
  frames. The line may lose, damage and repeat frames; any read may time out at any moment; the receiver may lose a
  payload. The sender's machine has a state for every place where `_send_window`, `_probe_receiver`, `_recover_window` and
  the end of `send_file` read or write. The barrier counter and the reset token start at whatever earlier transfers of the
  session left.
  - `TransferSafety.dfy`: an invariant over both ends and both queues, for every step, and what follows from it for every
    run.
  - `TransferCredit.dfy`: what holds in addition on a line that repeats no block; other lines may be repeated.
  - `TransferWork.dfy`: how much the sender can be made to send, by any replies.
  - `TransferPatience.dfy`: when the sender repeats a request and when it gives up, for any replies, in counts taken from
    its history.
  - `TransferHistory.dfy`: every position the sender takes as acknowledged, the receiver had reached.
  - `TransferProgress.dfy`: an undisturbed transfer always ends well, and two runs that show what is not promised.
  - `TransferRecovery.dfy`: a transfer in which one block is lost, damaged or cut short always ends well, too.
  - `TransferVerdict.dfy`: what decides, when DONE is written, whether the file will be reported as verified, and which
    replies of an honest receiver the sender refuses.
  - `TransferQueues.dfy`: the order of queues.
- **The two ends as they run.** `ServerLoop.dfy` is the sender as a class with its nested loops and clock, proved to make
  only moves of the sender machine; `ReceiverLoop.dfy` is the receiving loop as a class, proved against a fold over
  arbitrary arrivals.
- **The LZ4 block codec.** `Lz4Format.dfy` is the LZ4 Block Format as a parser, a renderer and a byte-at-a-time decoder;
  `Lz4Codec.dfy` the Python codec; `Lz4Unpack.dfy` the BASIC decoder on two arrays.
- **CRC-32** (`Crc32.dfy`): the reference code of section 8 of RFC 1952, the firmware's `MATH(CRC32 ...)` by its parameters,
  and the chunked chaining built on it.
- **Framing** (`Framing.dfy`), **keep-alive** (`KeepAlive.dfy` for one end, `KeepAlivePair.dfy` for two) and **teardown**
  (`Teardown.dfy`) of `src/pcutp/link.py`: three views of its class `Link`, each with the state that matters there.
- **Negotiation** (`Negotiation.dfy`) and the control-line text it is written in (`Text.dfy`).

Inputs from outside (the other end, the clock, the transport) are parameters: any sequence of replies with any gaps, any
way of cutting the byte stream, any interleaving. A raised error is the outcome `Abort`, `Lost`, `Failed` or `None`.

## What the proofs found

- Runs of the two ends exist, and the healthy ones all end well: `TransferProgress.UndisturbedTransferSucceeds` gives, after
  every undisturbed run, the step that continues it, and the exact number of steps to a verified file.
- While no block is repeated the receiver's own reset (three gaps in a row) never happens, because the window is two and the
  missing block comes before a second gap (`TransferCredit.ReceiverNeverGivesUp`).
- `verified = False` does not mean that the file is bad. On a line that loses nothing, a sender that probes a receiver which
  is merely late can read the probe's HERE as the answer to DONE (`TransferProgress.LateHereSpoilsVerdict`). The verdict is
  decided when DONE is written: if from then on nothing is lost, repeated or damaged, the file is reported as verified
  exactly when at that moment only ACKs and RESUMEs were on their way to the sender and only barriers and clean blocks on
  their way to the receiver (`TransferVerdict.VerdictDecidedAtDone`).
- An honest receiver can make the sender give up over an "unexpected window reply": by a HERE in the guard time of a second
  probe, by a RESUME of an earlier recovery read in a guard time or after the wait, or by its own ERR. No other line does
  (`TransferVerdict.UnexpectedReplyIff`).
- A control line of 513 to 575 bytes is accepted or refused depending on how the transport cuts the stream, because the
  length check comes between reads of at most 64 bytes (`Framing.LongLineDependsOnSplit`). `Framing.CutMattersIffFickle`
  says exactly for which streams the cut matters; lines of 576 bytes and more are always refused.
  A refusal is for good: until the input is discarded every later call is refused too (`Framing.RefusalRepeats`).
- Only repeated blocks do harm. Repeated control lines, in either direction, put no block in flight twice and upset no
  recovery (`TransferCredit.FlightFitsWindow`, `TransferCredit.RecoveryNeverRefused`); which lines a recovery is refused over
  when blocks are repeated is `TransferVerdict.RefusedRecoveryIff`.
- A probe's id is one bit, so a stale answer can pass for a fresh one. Each such line delays the detection of a dead peer by
  at most one stretch of silence (`KeepAlive.DeadPeerIsNoticed`).
- Two ends whose beacons are rarer than all their probes for silence can both give up a line that works: they probe at the
  same time under the same one-bit id, and each takes the other's PING for its own coming back and does not answer it
  (`src/pcutp/link.py:183`). With a beacon due before that, as by default, a line that is quick enough is never given up
  (`KeepAlivePair.NeverLostIff`).
- The encoder's greedy parse is the only one that misses no match and cuts none short (`Lz4Codec.OnlyGreedyIsComplete`).
- `src/pcutp/const.py:44` expects a silent link to fail after about 20 seconds. With the default settings the code first
  sends a beacon, then probes for that beacon's receipt, and fails after `retries + 2` intervals, 25 seconds plus the slack
  of the polling loop, always with "TX path failed" (`KeepAlive.SilenceBlamesTransmit`). The 20 seconds hold when the beacon
  interval is longer than all the probing (`KeepAlive.SilenceBlamesReceive`). The model follows the code.
- A client whose receive buffer is larger than 1048576 bytes is refused by the server's own option parser
  (`Negotiation.EndsAgree`).

## Model

| member | source | states |
|---|---|---|
| TransferSafety.StepKeeps | src/pcutp/server.py:383-569 | every step of either end and of the line keeps the invariant that relates base, next, expected, tokens, checksums and both queues |
| TransferSafety.RunKeeps | src/pcutp/server.py:383-569 | the invariant holds after every run, lines lost, damaged and repeated included |
| TransferSafety.BarrierQuiescence | src/pcutp/server.py:549-569 | whenever the answer to the barrier is read, the receiver stands exactly there, nothing but this barrier is left toward the receiver and nothing but this answer toward the sender; the window is filled again only from such a position |
| TransferSafety.DoneOnlyWhenComplete | src/pcutp/server.py:354 | DONE is written only when the receiver holds every block and its file is the data |
| TransferSafety.ReceiverNeverMisled | src/pcutp/client.py:198-329 | with this sender the receiver never meets an early DONE, a header it rejects or a file that fails its check; its file is always a whole prefix of the data |
| TransferSafety.VerifiedMeansDelivered | src/pcutp/server.py:355-380 | a verified result means the receiver has finished with exactly the data |
| TransferVerdict.VerdictDecidedAtDone | src/pcutp/server.py:354-369 | from DONE on undisturbed, the file is reported as verified iff, when DONE was written, only ACKs and RESUMEs were on the way to the sender and only barriers and clean blocks on the way to the receiver |
| TransferVerdict.ClearIsVerified | src/pcutp/server.py:354-369 | from every state in which DONE is written some undisturbed continuation reaches the verdict, and it is the one that this condition names |
| TransferVerdict.VerdictIsExact | src/pcutp/server.py:355-369 | in every run the line that ends the wait verifies the file iff it is an OK; otherwise it is a NAK, a DROP or a HERE, never a FAIL, RST, RST-ACK or ERR |
| TransferVerdict.UnexpectedReplyIff | src/pcutp/server.py:480-482 | an honest receiver causes "unexpected window reply" iff a HERE is read in a second guard time, an old RESUME in a guard time or late, or the ERR of a receiver that gave up |
| TransferVerdict.RefusedRecoveryIff | src/pcutp/server.py:526-567 | an honest receiver makes a recovery or a reset request fail with a protocol error iff its own RST or its ERR is read there, or it answers from before base, which means that it has reset itself and stands at zero |
| TransferSafety.HonestReceiverNeverBlamed | src/pcutp/server.py:432-456 | an honest receiver never triggers "ACK for unsent block" nor "receiver did not reset to sequence zero" |
| TransferHistory.AcknowledgedIsHeld | src/pcutp/server.py:432-449 | every acknowledged prefix, and every one an ACK on the line names, had been committed by the receiver; while blocks are sent it is still in its file, unless the receiver reset itself, and then base is still short of the last block |
| TransferHistory.BaseWasCommitted | src/pcutp/server.py:438-479 | whatever moves base, an ACK or an answered barrier, the receiver had committed the file up to there |
| TransferSafety.CommitFits | src/pcutp/client.py:301-313 | the next block has the length META implies and extends the file and its checksum to the next prefix |
| TransferSafety.BlockExtends | src/pcutp/server.py:402-403 | each block extends the prefix before it and has the length the receiver expects |
| TransferSafety.BlocksCover | src/pcutp/server.py:333 | the blocks cover the data, and an empty file has one block |
| TransferCredit.OrderlyStep | src/pcutp/server.py:383-569 | every step on a line that repeats no block keeps blocks in flight distinct, in order and above base, and the receiver within one gap of the sender |
| TransferCredit.ReceiverNeverGivesUp | src/pcutp/client.py:283-297 | while no block is repeated the receiver counts at most one gap, never resets itself and never fails |
| TransferCredit.RecoveryNeverRefused | src/pcutp/server.py:536-567 | while no block is repeated an honest receiver never makes recovery or reset abort with a protocol error |
| TransferCredit.AcknowledgedStaysHeld | src/pcutp/server.py:432-449 | while no block is repeated everything acknowledged stays in the receiver's file while blocks flow |
| TransferCredit.FlightFitsWindow | src/pcutp/server.py:396-416 | while no block is repeated, whatever control lines are, blocks in flight have distinct increasing numbers in [base, next), next - base is at most the window, and with headers they fit in window * (block + 64) bytes |
| TransferCredit.HeaderReadsBack | src/pcutp/server.py:406-410 | the words of a DATA or ZDATA header read back as number, lengths and checksum |
| TransferCredit.HeaderIsShort | src/pcutp/flow.py:7 | a DATA or ZDATA header with its line feed fits in the 64 bytes of overhead |
| TransferWork.DataIsBounded | src/pcutp/server.py:390-483 | for any replies and timeouts at most (MAX_RESETS + 1) * blocks * (max_retries + 1) data frames are sent |
| TransferWork.BaseAdvances | src/pcutp/server.py:438-479 | base falls only where a counted reset is carried out, and resets never exceed MAX_RESETS |
| TransferWork.WindowGrowsAfterCleanAcks | src/pcutp/server.py:438-442 | the congestion window is the negotiated one exactly while eight or more clean ACKs are on record, otherwise one |
| TransferWork.SenderHistory | src/pcutp/server.py:383-483 | in a run of both ends the sender's part is one of its own histories, so the work bound holds there |
| TransferPatience.RetriesExhaustedIff | src/pcutp/server.py:396-479 | for any replies the sender runs out of retries exactly on the (max_retries + 1)th answered recovery that does not move base, counted since base last rose or a reset was carried out, or when the block that is due was written max_retries + 1 times since the last reset |
| TransferPatience.ExhaustionIsEarned | src/pcutp/server.py:396-479 | a run that ends for lack of retries has had all of them |
| TransferPatience.LimitsAreKept | src/pcutp/server.py:450-569 | the link is given up exactly when the third RST under one token has had its time, after probe_retries probes under their own tokens; recovery when the (max_retries + 1)th copy of a barrier has; the file at the third reset; no request is made more often |
| TransferPatience.RepeatsAreEarned | src/pcutp/server.py:519-569 | a BARRIER or RST is written again only when the wait for its answer has just expired |
| TransferPatience.RefusedIff | src/pcutp/server.py:354-564 | for any replies: exactly when an ACK, the answer to a barrier, or the end of the time for the confirmation ends the run |
| TransferPatience.JudgedIff | src/pcutp/server.py:428-567 | for any replies: which are unexpected where they are met, and which start a recovery |
| TransferPatience.WindowFollowsAcks | src/pcutp/server.py:396-442 | the congestion window is the negotiated one iff eight ACKs moved base since the last timeout, recovery or restart; the retransmits reported are the blocks written before |
| TransferRecovery.OneMishapIsMended | src/pcutp/server.py:383-569 | if one block is lost, damaged or cut short and reads time out only when nothing is under way, the transfer never gives up, always has a next step, and ends verified and delivered within 8 * blocks + 21 steps |
| TransferRecovery.MishapEndsWell | src/pcutp/server.py:383-569 | every such run can be continued to a verified end |
| TransferProgress.UndisturbedTransferSucceeds | src/pcutp/server.py:308-380 | without losses and timeouts every run of a transfer goes on until 4 * blocks + 3 steps, sends no block twice, and ends verified with the data delivered |
| TransferProgress.LateHereSpoilsVerdict | src/pcutp/server.py:355-369 | a run without losses in which the receiver says OK and the sender reports the file as not verified |
| TransferProgress.RepeatsBreakCredit | src/pcutp/server.py:396-416 | a line that repeats a block puts two copies of a block in flight |
| TransferSafety.RawCarries | src/pcutp/server.py:410 | a raw frame passes every header, length and checksum test of the receiver and carries its block |
| ServerLoop.Server.SendFile | src/pcutp/server.py:343-380 | for any line: the loops make only moves of the sender machine, on the lines that came in, in order; a read counts as timed out or late exactly when ACK_TIMEOUT, PROBE_GUARD or PROBE_TIMEOUT have passed since its wait began; outcome, bytes written and work bound are the machine's, and running out of retries is earned |
| ServerLoop.Server.SendWindow | src/pcutp/server.py:383-483 | ends for any replies, by (MAX_RESETS - resets, blocks - base, max_retries - recoveries); returns the machine's retransmit count or its reason to abort |
| ServerLoop.Server.FillWindow | src/pcutp/server.py:396-416 | writes blocks until the congestion window is full or one is out of attempts |
| ServerLoop.Server.BuildFrame | src/pcutp/server.py:402-411 | the frame carries its block through all receiver checks, and is packed exactly when packing pays |
| TransferSafety.PackedCarries | src/pcutp/server.py:404-408 | a packed frame passes every header, length and checksum test of the receiver because it is shorter than the raw block |
| ServerLoop.Server.NextReply | src/pcutp/server.py:418-431 | one reply to act on, through a probe when the wait is over and a second one for a late HERE |
| ServerLoop.Server.OnAck | src/pcutp/server.py:432-449 | an ACK moves base, grows the window and drops old attempts and frames as the machine does |
| ServerLoop.Server.OnReset | src/pcutp/server.py:450-465 | RST 0 restarts at zero through a barrier, within the reset limit |
| ServerLoop.Server.OnNak | src/pcutp/server.py:466-479 | NAK, DROP or a blank line resumes where the receiver stands, within the retry limit |
| ServerLoop.Server.ProbeReceiver | src/pcutp/server.py:485-543 | guard, probes and reset request: the reply brought back is the one the machine handles |
| ServerLoop.Server.RequestReset | src/pcutp/server.py:519-543 | RST 0 under one fresh token until it is confirmed, refused, or three attempts are over |
| ServerLoop.Server.RecoverWindow | src/pcutp/server.py:549-569 | the position returned lies between base and next and answers this barrier |
| ServerLoop.Server.AwaitConfirmation | src/pcutp/server.py:354-369 | DONE, late ACKs and old RESUMEs passed over, and then the verdict |
| ReceiverLoop.SessionStaysConsistent | src/pcutp/client.py:193-315 | whatever arrives, file length = received = min(expected * block, size), the running checksum is the file's, expected is at most blocks, both kinds of reset included |
| ReceiverLoop.AllBlocksAreAllBytes | src/pcutp/client.py:233-236 | all blocks means all bytes, and OK means the file has META's size and checksum |
| ReceiverLoop.OkIffChecksumMatches | src/pcutp/client.py:319-329 | with all blocks in hand DONE is answered OK iff the file has the announced checksum |
| ReceiverLoop.DuplicatesDoNotMatter | src/pcutp/client.py:279-282 | a block that arrives again, whole or cut short, at any point of any session, changes nothing about the file and the outcome |
| ReceiverLoop.LastLineIsTrue | src/pcutp/client.py:219-329 | whatever arrives, the last line said is true: an ACK names the last block of the file, NAK, DROP, HERE and RESUME the block waited for, OK and FAIL the file's checksum |
| ReceiverLoop.EveryBlockIsAnswered | src/pcutp/client.py:265-313 | every data header that is not refused is answered by exactly one line: an ACK iff its block is now in the file, never when the payload is missing; a NAK iff it is not clean |
| ReceiverLoop.ArrivalsAreDeliveries | src/pcutp/client.py:265-272 | arrivals here are the deliveries of the two-machine model: a whole frame, and a fitting header whose payload times out |
| ReceiverLoop.ThirdGapResets | src/pcutp/client.py:283-300 | two gaps in a row are answered with DROP, the third makes the receiver start over, and after two such resets it fails |
| ReceiverLoop.FileIsSupplied | src/pcutp/client.py:254-312 | whatever arrives, every block in the file is the content of a frame that arrived whole, clean and under its number |
| ReceiverLoop.Client.Receive | src/pcutp/client.py:186-329 | META and space checks, then the loop: the outcome and every line written are those of the fold over the arrivals |
| ReceiverLoop.Client.Pass | src/pcutp/client.py:199-315 | one pass of the loop is one step of the receiver machine |
| Lz4Codec.Compress | src/pcutp/compression.py:10-50 | the output is the greedy parse in the block format, decodes to the input, misses no match and cuts none short, keeps the end-of-block rules and is at most n + n/255 + 2 long |
| Lz4Codec.GreedyIsComplete | src/pcutp/compression.py:21-33 | where a literal stands the nearest place looked at with the same four bytes is too far away or agrees in fewer than 12 bytes; every match is taken from the nearest one and goes on until the bytes differ or five are left |
| Lz4Codec.OnlyGreedyIsComplete | src/pcutp/compression.py:21-33 | that determines the parse: any other list of sequences misses a match or cuts one short |
| Lz4Codec.Search | src/pcutp/compression.py:21-33 | the hash table finds the nearest visited position with the same four bytes; the match is taken iff that is near enough and twelve bytes agree, and then with all that agree |
| Lz4Codec.MatchLength | src/pcutp/compression.py:28-30 | the match agrees byte by byte, is maximal, and stops five bytes before the end |
| Lz4Codec.Decompress | src/pcutp/compression.py:53-98 | returns the block's bytes exactly when the byte-at-a-time decoder yields that many, and otherwise fails |
| Lz4Codec.AppendMatch | src/pcutp/compression.py:93-97 | the doubling copy is the byte-at-a-time overlapping copy |
| Lz4Codec.RoundTrip | src/pcutp/compression.py:10-98 | decompress(compress(data), len(data)) is data for every block up to 4096 bytes |
| Lz4Codec.PaysMeans | src/pcutp/compression.py:106-110 | the estimate in whole numbers: 20000000 * (saved bytes) > 3 * baud * (2000 + 500 * matches + 2 * size), and 15 percent shorter |
| Lz4Codec.Worthwhile | src/pcutp/compression.py:101-111 | the packed form is offered iff the block is long enough and packing pays; then it is shorter and decodes to the block |
| Lz4Format.FormatRoundTrip | src/pcutp/compression.py:34-49 | every block of well-formed sequences survives rendering and parsing, 255-runs included |
| Lz4Format.CopyByChunk | src/pcutp/compression.py:93-97 | appending a whole chunk from the match source equals copying that many bytes one by one |
| Lz4Format.CopyReproduces | src/pcutp/compression.py:28-30 | a match found in the input reproduces the input, however far it overlaps itself |
| Lz4Format.CopyIsPeriodic | src/pcutp/compression.py:93-97 | an overlapping copy repeats with the period of its offset |
| Lz4Unpack.UnpackLz4 | picocalc/PCUTP.BAS:505-554 | accepts exactly what the format decoder does, reads below packedLen, writes below plainLen, leaves the packed block alone when it refuses |
| Lz4Unpack.DecodersAgree | picocalc/PCUTP.BAS:505-554 | both decoders give the same answer on every packed block and size |
| Lz4Unpack.CopyMatch | picocalc/PCUTP.BAS:546-552 | the in-place doubling copy is the byte-at-a-time overlapping copy |
| Crc32.BuildReflect | picocalc/PCUTP.BAS:585-594 | the table holds the bit reversal of every byte |
| Crc32.ReflectIsReversal | picocalc/PCUTP.BAS:581-583 | the four table look-ups reverse all 32 bits |
| Crc32.ReversalMovesBits | picocalc/PCUTP.BAS:581-583 | bit i of the reversal is bit 31 - i |
| Crc32.ReversalUndoesItself | picocalc/PCUTP.BAS:581-583 | reversal is its own inverse |
| Crc32.FirmwareContinues | picocalc/PCUTP.BAS:576-578 | the firmware CRC with both reflections and a reversed start mask continues the reference CRC |
| Crc32.ChunkContinues | picocalc/PCUTP.BAS:576-578 | one chunk continues the running CRC |
| Crc32.CrcBoth | picocalc/PCUTP.BAS:776-789 | in chunks of at most 255 bytes, for any length and both seeds, the CRC of one pass over all of it |
| Crc32.CheckValue | src/pcutp/client.py:309 | CRC-32/ISO-HDLC by its check value: "123456789" gives CBF43926 |
| Crc32.CrcContinues | src/pcutp/client.py:309 | feeding a checksum back as the seed continues it over more data |
| Crc32.TableIsEightSteps | src/pcutp/client.py:309 | one byte of the table-driven reference code is eight shifts of the register |
| Framing.AwaitReadsStream | src/pcutp/link.py:116-275 | reading in chunks gives the first line of the whole stream, with the same answers and nothing lost |
| Framing.SplitsAgree | src/pcutp/link.py:116-275 | two ways of cutting one stream of short lines give the same line, answers and remaining bytes |
| Framing.FrameComesBack | src/pcutp/link.py:87-95 | a header and its binary payload come back as sent for any way of cutting the stream |
| Framing.CutMattersIffFickle | src/pcutp/link.py:223-275 | two ways of cutting a stream into reads of at most 64 bytes can differ in outcome, answers or remaining bytes iff the line feed of its first over-long line comes after 513 to 575 bytes |
| Framing.PingsAreAnswered | src/pcutp/link.py:179-185 | any PINGs before a line are answered with the PONGs of the same ids, once and in order, and the caller sees none of them |
| Framing.StrayBytesAreDropped | src/pcutp/link.py:123-125 | NULs before a line and carriage returns behind it are dropped |
| Framing.ShortIffNeverRefused | src/pcutp/link.py:223-224 | exactly the streams whose lines have at most 512 bytes are never refused |
| Framing.RefusedHoweverCut | src/pcutp/link.py:223-224 | over-long streams for which the cut does not matter are refused however they are cut |
| Framing.RefusalRepeats | src/pcutp/link.py:116-224 | after a refusal every later call is refused at once, without reading, whatever has come since, and leaves the buffer as it was |
| Framing.LongLineDependsOnSplit | src/pcutp/link.py:223-275 | a line of 513 bytes is read for one cut into reads of at most 64 bytes and refused for another |
| Framing.FirstConserves | src/pcutp/link.py:119-126 | what is left is the stream from just behind the line that was read |
| Framing.ExactReadsStream | src/pcutp/link.py:348-360 | the payload is the next bytes of the stream; on a timeout nothing is consumed |
| Framing.Link.RecvLine | src/pcutp/link.py:98-275 | outcome, buffer and answers are those of the chunk-by-chunk specification on the pieces of at most 64 bytes that came in time; it times out only after the timeout |
| Framing.Link.RecvExact | src/pcutp/link.py:348-360 | bytes delivered and bytes buffered are the bytes read, no more than wanted; it times out only after the timeout |
| Framing.Link.SendLineAndRaw | src/pcutp/link.py:87-95 | line, line feed and payload are written as one piece |
| Framing.Link.DiscardInput | src/pcutp/link.py:362-371 | reads until the first read that brings nothing, and ends with an empty buffer |
| KeepAlive.ProbesAreSpaced | src/pcutp/link.py:237-270 | whatever is heard, any two probes are at least one interval apart |
| KeepAlive.SilenceIsNoticed | src/pcutp/link.py:127-272 | while nothing valid is heard, stale answers and echoes included, at most one beacon and 2 * retries + 1 probes, and an end within 2 * retries + 2 intervals with slack |
| KeepAlive.DeadPeerIsNoticed | src/pcutp/link.py:98-272 | whatever is heard, if n lines of it count for something, stale answers with the outstanding bit included, the end comes within n + 1 times the time, probes and beacons of plain silence |
| KeepAlive.SilenceBlamesTransmit | src/pcutp/link.py:227-270 | with a beacon due within retries + 1 intervals silence is never a lost receive direction, and a lost transmit direction not before retries + 2 intervals; with beacons no rarer than probes within as many with slack |
| KeepAlive.SilenceBlamesReceive | src/pcutp/link.py:257-270 | with no beacon due in that time silence is never a lost transmit direction, and a lost receive direction between retries + 1 intervals and as many with slack |
| KeepAlive.SilenceIsDated | src/pcutp/link.py:227-270 | for any beacon interval, a lost receive direction is reported only while no beacon has been due, a lost transmit direction only after one has |
| KeepAlive.DeadTransmitIsNoticed | src/pcutp/link.py:127-256 | while the peer is heard but confirms nothing, stale answers and receipts included, the end comes within a beacon interval and retries + 2 intervals with slack |
| KeepAlivePair.WordedIsHeard | src/pcutp/link.py:127-190 | every keep-alive line as one end words it is sorted by the other end, which has the directions the other way round, as what it is |
| KeepAlivePair.BeaconIsReceipted | src/pcutp/link.py:144-171 | for any two watches: a beacon that one waits for is answered by the other with the line that ends the wait |
| KeepAlivePair.ProbeIsAnswered | src/pcutp/link.py:182-195 | for any two watches: an outstanding probe is answered with the line that settles it, exactly unless the other has the same id outstanding |
| KeepAlivePair.SoundLineIsNeverLost | src/pcutp/link.py:225-272 | two ends on a line that delivers every line within d ticks never report a lost direction, if beacons come before the probes for silence are used up and twice the delay with the other end's slack fits into those for a receipt |
| KeepAlivePair.NeverLostIff | src/pcutp/link.py:225-272 | on such a line no run ever reports a lost direction iff the beacon interval is at most retries + 1 intervals |
| KeepAlivePair.BriskLineIsQuiet | src/pcutp/link.py:225-272 | if delay and slack are within the interval, no AYT? is ever under way and both calls wait until their deadlines |
| KeepAlive.Link.RecvLine | src/pcutp/link.py:98-275 | the waiting loop is the fold that the keep-alive theorems are about |
| Teardown.AcknowledgedOnlyIfAnswered | src/pcutp/link.py:283-310 | with losses and timeouts each end sends at most CLOSE_RETRIES CLOSEs, and returns true only if the peer answered one with BYE |
| Teardown.SimultaneousClose | src/pcutp/link.py:283-310 | two concurrent calls on a lossless line both return true in every interleaving, within six moves, and leave the line empty |
| Teardown.OrderlyClose | src/pcutp/server.py:142-150 | one end closes and the serving end answers and closes: both calls return true after exactly six moves |
| Teardown.Link.SendFin | src/pcutp/link.py:283-310 | for any arrivals: true iff a BYE is among those read; each attempt goes on until BYE, until a read brings nothing, or until the timeout has passed since its CLOSE; false only after all attempts; what is written is one CLOSE an attempt and a BYE for every CLOSE heard; its history is that of a closing end |
| Teardown.PromptByeSuffices | src/pcutp/link.py:296-308 | a BYE that comes first, within the timeout, gives true after one CLOSE |
| Negotiation.EndsAgree | src/pcutp/server.py:192-245 | for all configurations, both forms of offer and proposal leave both ends with the same values; it fails iff the receive buffer exceeds 1048576 |
| Negotiation.OfferIsAnswered | src/pcutp/server.py:201-217 | the rendered offer is parsed to the minimum of both ends' limits |
| Negotiation.ProposalIsAccepted | src/pcutp/client.py:86-104 | the rendered proposal passes the client's capability check with the proposed values |
| Negotiation.AcceptedSessionFits | src/pcutp/client.py:94-104 | whatever the proposal, a client that goes on has room for a full window |
| Negotiation.ProposedSessionFits | src/pcutp/server.py:202-216 | whatever the offer, the proposal exceeds no limit of either end, MAXBLK included; with flow control its window fits the announced buffer and is as large as it can be |
| Negotiation.ReceiveBufferSuffices | src/pcutp/flow.py:7 | from greeting to line: blocks in flight never exceed the announced receive buffer |
| Negotiation.SettingReadsBack | src/pcutp/flow.py:24-36 | a setting reads back iff its key is known and new and its value in range; unknown ones are passed over |
| Negotiation.ParseOptions | src/pcutp/flow.py:24-36 | the loop is the fold over tokens; values are known keys in 1..1048576 |
| Negotiation.ServerEnd.HandleHello | src/pcutp/server.py:192-226 | the fields set and the proposal written are those of the session agreed |
| Negotiation.ClientEnd.CheckProposal | src/pcutp/client.py:86-104 | the fields set and the block size returned are those of the proposal, or it is refused |
| Negotiation.ChooseBlock | src/pcutp/flow.py:10-21 | the limit without a window, else of 256, 512, 1024, 2048, 4096 and the limit the one with the least frames * 180 / baud + last frame * 0.00004, in whole numbers, and the smallest of equals |
| Text.DecimalReadsBack | src/pcutp/flow.py:29-32 | a number written in decimal is accepted and reads back |
| Text.Hex8ReadsBack | src/pcutp/server.py:330 | a checksum written in eight hexadecimal digits reads back |
| Text.WordsOfJoined | src/pcutp/client.py:86 | words joined by spaces are split into the same words |

## Left out

- Stop-and-wait transfers (`_send_block`, and the receiver's replies without FLOW=1), RMB status replies, WHO?/IAM, ERR
  text, file names and URLs: easy, and no part of the properties above.
- The `.PCUTP` checkpoint, renaming, and write errors: the receiver's file is its contents in memory.
- The retries of HELLO and HRU in `hello` and `_handle_hello`: the theorems cover each form of offer and proposal that the
  retries produce, not the retry loops.
- The sampling in `send_file` that decides whether to compress and whether to use the block limit: any block size and either
  decision is covered.
- Bytes lost inside a frame, which desynchronise framing: a frame is lost or damaged as a whole, or its payload times out.
- Damage that a checksum does not show: damage is assumed to make the payload undecodable or to change its checksum.
- Frames of an earlier transfer still on the line when a transfer starts: both queues start empty.
- Real time in the two-machine model: time-outs there happen at any moment, so the margins between ACK_TIMEOUT, PROBE_GUARD
  and DATA_TIMEOUT are not modelled. The loops of `ServerLoop`, `KeepAlive`, `Framing` and `Teardown` count ticks.
- Tokens as strings: tokens are numbers, so a token written with leading zeros is not told apart from one without.
- Fields of one line that does not have its expected form: such a line is known by its first word only.
- MMBasic's 64-bit integers in the CRC code: the model uses 32-bit values, which is what its masks keep.
- Transport errors, tracing, sounds, progress callbacks.
- Negotiation.ChooseBlock: costs are exact rationals, not floating point.
- Lz4Codec.Worthwhile: costs are exact rationals, not floating point.
- TransferCredit.FlightFitsWindow: not for lines that repeat blocks, where it is false (TransferProgress.RepeatsBreakCredit).
- TransferProgress.UndisturbedTransferSucceeds: says nothing about runs with timeouts or losses, which may end in an abort.
- TransferRecovery.OneMishapIsMended: one mishap, and no read that times out while something is under way; with more of
  either a run may end in an abort (`TransferPatience`) or a verdict that is too pessimistic.
- KeepAlivePair.SoundLineIsNeverLost: both calls of `recv_line` begin together, with nothing on the line; a run ends when
  one of them returns.
