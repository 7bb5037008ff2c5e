# UDP secure transfer: a verified model

This project models the file-transfer protocols of the repository and proves their main properties.

- **Reliable UDP** (`ReliableServer.dfy`, `ReliableClient.dfy`): the sliding-window sender and the reordering receiver as
  classes with the source's fields, each method proved equal to a step of a value-level specification.
- **The joint system** (`ReliableSystem.dfy`, `ReliableTheorems.dfy`, `ReliableResponses.dfy`,
  `ReliableEmissions.dfy`, `ReliableWrap.dfy`, `ReliableRuns.dfy`, `ReliableFairness.dfy`, `ReliableLiveness.dfy`):
  sender, receiver and a network that may drop, repeat and reorder every packet, as a state machine. The network is
  everything ever sent, so any packet can arrive at any time, any number of times, or never. Safety is proved for every
  reachable state, progress both as "never wedged" and for every fair infinite run. Whole runs of the two transfer
  functions are tied to its paths.
- **SHA-1** (`Sha1Spec.dfy`, `Sha1.dfy`, `Sha1Example.dfy`): the streaming context against the one-shot definition of
  FIPS 180-4, and that definition against the standard's example.
- **The packet cache** (`LogLines.dfy`, `PacketsCache.dfy`, `PacketsScan.dfy`, `PacketsFile.dfy`): the incremental log
  scan against a full rescan, and the rewriting of `packets.jsonl`.
- **Basic transfer and authentication** (`BasicTransfer.dfy`, `Authentication.dfy`).
- **Formats**: the UDP codec (`Packets.dfy`), TCP framing (`Framing.dfy`), the record layer and its HMAC
  (`TlsRecords.dfy`, `Hmac.dfy`), base64 (`Base64.dfy`), DNS names and responses (`DnsNames.dfy`), the MQTT length (`MqttLength.dfy`).
- **Transfer statistics** (`TransferStats.dfy`): the loss, duplicate, pending and out-of-order sets of the web page.

Verify everything with `dafny verify --resource-limit 2000000 dfyconfig.toml`.

Conventions. Bytes are naturals below 256; C integers that can wrap are reduced explicitly. What the source gets from
sockets, timers and files is a parameter: a script of arrivals, the set of timers found expired, the contents of a file.
Methods that change state are tied by `ensures` to specification functions, and the theorems are lemmas about those.
The specification functions themselves are pinned by what they do to a packet, a byte or an example, in plain numbers.

Where the code differs from what is said about it, the code is modelled:

- Chunk ids and sequence numbers are 32-bit. Reliable transfers complete, both kinds of transfer write prefixes only, and
  in-order records write the whole file, exactly below 2^32 chunks; each has an if-and-only-if lemma.
- The three closing TERMINATEs can all be lost; the server then reports success and the client gives up on a complete
  copy. The client succeeds exactly in the runs in which one of them reaches it.
- An ACK for chunks that were never sent, which the client of this repository does not send, carries base past next; it
  can do so in the first turn of every transfer of more chunks than the window holds.
- The comment in `web/js/app.js` says that both ids of every inversion are marked, so that arrivals 5, 0, 1, 2 mark 1 and
  2; the code marks 5 and 0. The exact condition for the claim is proved.
- The comments there call the stack strictly decreasing and pop equal ids; in the code it is nondecreasing from bottom to
  top, and equal ids stay.
- A log line that does not open with a brace is written to `packets.jsonl` but not read back from it, so the file's uids
  cover those of the logs exactly when no sender's line is of that kind.
- In `base64_encode` of `control_server.c` the tests of `i` against `len` never fire; the fix-up after the loop pads.
- DNS names with one trailing dot are encoded, as if without it, and come back without it.
- `build_control_packet` makes zero-payload ACK and NACK packets that `parse_packet` refuses.

## Model

| member | source | states |
|---|---|---|
| `Packets.BuildControlPacket` | src/protocol.c:94-103 | succeeds exactly for the control codes and a large enough buffer, writes header and zero length, and leaves the buffer alone on failure |
| `Packets.BuildPassRespPacket` | src/protocol.c:105-119 | succeeds exactly when the password, cut at its first NUL, has at most 255 bytes and fits; the bytes written are its wire form |
| `Packets.BuildDataPacket` | src/protocol.c:121-136 | succeeds exactly for at most 1000 bytes that fit; the bytes written are the DATA wire form |
| `Packets.BuildFeedbackPacket` | src/protocol.c:138-150 | succeeds exactly for the ACK and NACK codes with room; the bytes written are that packet's wire form |
| `Packets.BuildTerminatePacket` | src/protocol.c:152-163 | succeeds exactly when 26 bytes fit; the bytes written are the TERMINATE wire form |
| `Packets.ParseOfEncode` | src/protocol.c:172-249 | parsing any well-formed packet's wire form gives the packet back, every field included |
| `Packets.EncodeOfParse` | src/protocol.c:172-249 | every byte string the parser accepts is the wire form of what it parses to |
| `Packets.ParseAcceptsExactlyEncodings` | src/protocol.c:172-249 | the parser accepts exactly the wire forms of well-formed packets |
| `Packets.PasswordRebuilds` | src/protocol.c:105-119 | the password builder reproduces an accepted PASS_RESP exactly when its password has no NUL |
| `Packets.ControlBuilderParses` | src/protocol.c:94-103 | of the packets the control builder makes, the parser refuses exactly the zero-payload ACK and NACK |
| `Packets.WireLayout` | src/protocol.c:94-163 | every packet's wire form byte by byte: type code, payload length, ids and window, the most significant byte first |
| `Packets.Limits` | src/protocol.c:172-249 | the format carries exactly passwords of at most 255 bytes, chunks of at most 1000 and digests of 20 |
| `Bytes.BigEndian` | src/protocol.c:12-33 | a stored number shows its bytes from the most significant to the least |
| `Bytes.PutGetU32` | src/protocol.c:12-33 | a stored big-endian 32-bit value reads back, whatever follows it |
| `Bytes.GetPutU32` | src/protocol.c:12-33 | storing what was read reproduces the four bytes |
| `Sha1Spec.PadZerosLeast` | src/sha1_util.c:95-118 | the padding length is the least number of zero bytes after the marker that leaves eight bytes of a block (section 5.1.1 of FIPS 180-4) |
| `Sha1Spec.ChooseForm` | src/sha1_util.c:24-41 | the code's disjunctive choice function is the exclusive-or form of the standard |
| `Sha1Spec.MajorityForm` | src/sha1_util.c:24-41 | the code's disjunctive majority function is the exclusive-or form of the standard |
| `Sha1Spec.ChainPrefix` | src/sha1_util.c:73-93 | the chaining value after n blocks does not depend on what follows them |
| `Sha1Spec.LengthField` | src/sha1_util.c:108-111 | the eight bytes of the length field, the most significant first, have the value of the bit count |
| `Sha1Example.ConstantsAreRoots` | src/sha1_util.c:24-41 | each round constant is the integer part of 2^30 times the square root of 2, 3, 5 or 10, by quarter |
| `Sha1Example.DigestOfAbc` | src/sha1_util.c:10-118 | the digest of the bytes 97, 98, 99 is a9993e36 4706816a ba3e2571 7850c26c 9cd0d89d, the one-block example of FIPS 180-4 |
| `Sha1.Sha1Context.constructor` | src/sha1_util.c:63-71 | a fresh context has absorbed the empty message |
| `Sha1.Sha1Context.ExpandBlock` | src/sha1_util.c:10-23 | the array holds the 80 words of the message schedule of the buffered block |
| `Sha1.Sha1Context.Transform` | src/sha1_util.c:10-61 | the state becomes the compression (section 6.1.2 of FIPS 180-4) of the old state and the buffered block |
| `Sha1.Sha1Context.Take` | src/sha1_util.c:77-92 | filling the buffer with a piece, and compressing when it is full, absorbs exactly that piece |
| `Sha1.Sha1Context.Update` | src/sha1_util.c:73-93 | absorbs exactly the given bytes, for every fill level of the buffer, and keeps fewer than 64 bytes buffered |
| `Sha1.Sha1Context.PadBlock` | src/sha1_util.c:99-107 | the zero-padding loop adds exactly the least number of zero bytes and stops |
| `Sha1.Sha1Context.Final` | src/sha1_util.c:95-118 | returns the one-shot digest of everything absorbed and wipes the context |
| `Sha1.HashParts` | src/sha1_util.c:73-118 | every way of splitting a message into update calls gives the one-shot digest of the whole |
| `Sha1.Sha1File` | src/sha1_util.c:120-141 | hashing a file through a 4096-byte read buffer is hashing its contents |
| `FileChunks.ChunkPrefix` | src/server.c:257-285 | the first n chunks are the first 1000 n bytes of the file |
| `FileChunks.ChunkSize` | src/server.c:257-285 | all chunks but the last have 1000 bytes, the last what is left, each from its place in the file |
| `ReliableServer.FreshMarks` | src/server.c:272-285 | a fresh chunk carries its number modulo 2^32, its bytes, and exactly the loss, duplicate and reorder marks set for that number |
| `FileChunks.ChunksJoin` | src/server.c:257-285 | the chunks concatenate to the file |
| `ReliableServer.Sender.LoadReliableChunks` | src/server.c:237-290 | the doubling array ends up holding one fresh chunk per 1000 bytes, in file order, with its fault marks |
| `ReliableServer.Sender.SendReliableChunk` | src/server.c:292-343 | the new state is SendAt of the old: hold first, then drop, then send, then duplicate |
| `ReliableServer.Sender.ReleaseDelayedChunks` | src/server.c:345-360 | the new state is ReleaseUpTo of the old: every held, unacknowledged chunk below the limit is sent again |
| `ReliableServer.Sender.FillWindow` | src/server.c:464-476 | the new state is Fill of the old: send and release while the window has room |
| `ReliableServer.Sender.AdvanceBase` | src/server.c:500-502 | base moves to the first unacknowledged chunk |
| `ReliableServer.Sender.HandleFeedback` | src/server.c:490-512 | the new state is OnFeedback of the old: cumulative ACK, one-chunk NACK, anything else ignored |
| `ReliableServer.Sender.ResendExpired` | src/server.c:522-533 | the new state is ResendDue of the old: every due, sent, unheld, unacknowledged chunk of the window goes out again |
| `ReliableServer.Sender.TransferFileReliable` | src/server.c:433-569 | state, datagrams and return value of the whole call equal those of the specification run, for every script of arrivals and timers and for a stop at any turn or after the last acknowledgement |
| `ReliableServer.FirstUnacked` | src/server.c:500-502 | the first index from the given one whose chunk is not acknowledged, or the end |
| `ReliableServer.OnFeedback` | src/server.c:490-512 | feedback never moves base back, never past the last chunk, and never changes next or the number of chunks |
| `ReliableClient.Receiver.EnsureBufferCapacity` | src/client.c:242-259 | growth keeps old slots, leaves new slots absent, reaches what is needed and stays below max(33, 2 need) |
| `ReliableClient.Receiver.TakeSlot` | src/client.c:333-346 | one turn writes the expected payload, clears its slot and moves on to the next id |
| `ReliableClient.Receiver.DrainBuffer` | src/client.c:333-346 | the write-out loop is Drain of the state before it |
| `ReliableClient.Drain` | src/client.c:333-346 | after the loop the expected id is not held; feedback and status are as before |
| `ReliableResponses.GapIsReported` | src/client.c:299-352 | DATA ahead of the expected id is held, not written, and draws a NACK and then an ACK of the expected id |
| `ReliableResponses.NoGapNoReport` | src/client.c:282-352 | DATA up to the expected id draws exactly one ACK, of the expected id afterwards; late DATA changes nothing else, expected DATA is appended to the output |
| `ReliableResponses.TerminateAnswered` | src/client.c:354-402 | TERMINATE draws one ACK and ends the loop, successfully exactly when its digest is that of the bytes written |
| `ReliableResponses.OthersAbort` | src/client.c:403-411 | any other packet ends the loop without an answer |
| `ReliableClient.Receiver.HandleData` | src/client.c:282-353 | the new state is OnData of the old: late DATA is acknowledged only; other DATA is stored once, a gap draws a NACK, the run from the expected id is written, and an ACK follows |
| `ReliableClient.Receiver.HandleTerminate` | src/client.c:354-402 | compares the digest of everything written, and acknowledges in either case |
| `ReliableClient.Receiver.TransferFileReliable` | src/client.c:261-411 | the state after the loop equals the specification run, for every script of arrivals |
| `ReliableSystem.FirstSendForm` | src/server.c:464-476 | the first transmission in closed form: a simulated loss sends nothing and masks a simulated duplicate |
| `ReliableSystem.FillOneForm` | src/server.c:464-476 | a held chunk is released in the same iteration, so one turn of the fill touches chunk next only |
| `ReliableSystem.BoundsKept` | src/server.c:463-534 | the window edges stay inside the chunk array for every file, whatever the sender is fed |
| `ReliableSystem.StepKeepsInv` | src/server.c:463-534 | every event of sender, receiver or network keeps the joint invariant |
| `ReliableSystem.ReachableInv` | src/client.c:274-353 | the joint invariant holds in every reachable state, whatever is dropped, repeated or reordered |
| `ReliableSystem.AckKeeps` | src/server.c:492-502 | a cumulative ACK moves base to the larger of itself and the id, and keeps the sender's invariant |
| `ReliableSystem.DataKeeps` | src/client.c:282-353 | any chunk ever sent keeps the receiver's invariant, and the expected chunk always makes progress |
| `ReliableTheorems.PrefixSafety` | src/client.c:274-353 | the bytes written are always the concatenation of the first expected chunks, and received_bytes counts them |
| `ReliableTheorems.WindowSafety` | src/server.c:463-534 | base <= expected <= next <= min(count, base + window); acked holds exactly below base; no feedback id exceeds the current expected id |
| `ReliableTheorems.ReorderBufferBound` | src/client.c:299-346 | held ids lie strictly between the expected id and base + window, hold the right chunk, and number at most window - 1 |
| `ReliableTheorems.TerminateAfterEverything` | src/server.c:541-556 | whenever a TERMINATE is on the wire the client has written the whole file and its digest matches |
| `ReliableTheorems.SuccessMeansSameFile` | src/client.c:354-402 | the digest comparison never fails, and a successful return means output equals input |
| `ReliableTheorems.NeverWedged` | src/server.c:463-534 | from every reachable state of the loop a schedule without faults ends with both sides done and the file delivered |
| `ReliableTheorems.Round` | src/server.c:522-533 | from every state with unacknowledged chunks one fault-free round trip moves base strictly forward |
| `ReliableTheorems.ResendBase` | src/server.c:522-533 | after a fill, the timer for chunk base is always effective: exactly that chunk is sent again |
| `ReliableResponses.NackResends` | src/server.c:503-511 | a NACK for a chunk that was sent draws exactly that chunk once, unless it is acknowledged; base, next and all other chunks stay |
| `ReliableResponses.NackAhead` | src/server.c:503-511 | a NACK for a chunk not sent yet makes its first send call, with the simulated hold, loss or duplicate; one for no chunk draws nothing |
| `ReliableResponses.OthersIgnored` | src/server.c:490-512 | no packet but an ACK or a NACK changes the sender's state |
| `ReliableResponses.TimersResendExactlyDue` | src/server.c:522-533 | a timer check sends, in increasing order, exactly one copy of every chunk of the window whose timer has expired, and nothing else |
| `ReliableResponses.TimersVisit` | src/server.c:522-533 | in any state a timer check makes a send call for exactly the chunks of the window that are due, sent, not held and not acknowledged |
| `ReliableResponses.ReleaseSendsHeld` | src/server.c:345-360 | in any state the release loop makes a send call, in order, for exactly the held, unacknowledged chunks below its limit |
| `ReliableResponses.EndsInThreeTerminates` | src/server.c:546-556 | a transfer that succeeds ends with three TERMINATEs carrying the digest |
| `ReliableTheorems.CompletesIff` | src/server.c:463-569 | a transfer can complete exactly when the file has fewer than 2^32 chunks |
| `ReliableTheorems.TransferKeepsEdge` | src/server.c:433-545 | acknowledged chunks are exactly those below base even for forged feedback; success means all are acknowledged and no stop came first |
| `ReliableTheorems.FeedbackPastNextIff` | src/server.c:493-502 | an ACK leaves base at or below next exactly when its id, cut to the number of chunks, is at or below next |
| `ReliableTheorems.ForgedAckPassesNext` | src/server.c:463-502 | in the first turn of every transfer of more chunks than the window holds and fewer than 2^32, a forged ACK for all of them leaves base at the number of chunks and next at the window size |
| `ReliableTheorems.TerminatesCanAllBeLost` | src/server.c:546-556 | the three TERMINATEs are not acknowledged: a run in which all are lost leaves the server done and the client aborting on a complete copy |
| `ReliableTheorems.ClientSucceedsIff` | src/client.c:354-402 | in every run the client succeeds exactly when one of the TERMINATEs reaches it |
| `ReliableWrap.PrefixSafetyIff` | src/client.c:274-353 | for any positive window, the written bytes are a chunk prefix for all files of n chunks and in all runs exactly when n is below 2^32 |
| `ReliableWrap.WrapReached` | src/client.c:333-346 | at 2^32 chunks or more a run is reached in which chunk 0, arriving again, has been written after chunk 2^32 - 1 |
| `ReliableTheorems.TurnIsThreeSteps` | src/server.c:463-534 | one turn of the sender's loop is a fill, a receive and a timer check of the joint system |
| `ReliableRuns.RunsArePath` | src/server.c:433-569 | a run of the server's transfer function and one of the client's, merged in any order in which arrivals come after what the other side sent, is a path of the joint system and ends in the states the two functions return |
| `ReliableRuns.RunsAreSafe` | src/client.c:261-411 | in every such pair of runs no digest mismatch is found, the output is a chunk prefix of the file, and it is the whole file if either side reports success |
| `ReliableRuns.CompletedPathIff` | src/server.c:433-569 | an event sequence is a path on which both sides succeed exactly when it is such a merge of a successful run of each function |
| `ReliableRuns.RunsCompleteIff` | src/server.c:433-569 | two runs can be merged so that both functions succeed exactly when the file has fewer than 2^32 chunks |
| `ReliableTheorems.FillSendsInOrder` | src/server.c:464-476 | one fill emits only new chunks, in order: the simulated hold alone never reorders the wire |
| `ReliableEmissions.CallLogForm` | src/server.c:292-359 | the k-th send call for a chunk, released or not, emits nothing, one copy or two, as its fault marks say |
| `ReliableEmissions.EmissionCount` | src/server.c:292-359 | over any sequence of calls, however short, wire emissions equal calls minus the holds and drops plus the duplicates that happened in them |
| `ReliableEmissions.TallyForm` | src/server.c:292-359 | the hold happens in the first call if configured, the drop in the next, the duplicate in the first call after both, and each at most once |
| `ReliableEmissions.EmissionsSoFar` | src/server.c:292-359 | after any number of calls: none while held or dropped, then one each and the extra copy |
| `ReliableEmissions.EmissionsInRun` | src/server.c:292-359 | in every reachable state each chunk below next has gone on the wire as often as it was sent, less the configured loss, plus the configured duplicate unless the loss masks it; later chunks not at all |
| `ReliableLiveness.EventuallyAcknowledged` | src/server.c:463-534 | in every infinite run with fair links and timers all chunks are acknowledged at last, and by then the file is written |
| `ReliableLiveness.FairRunExists` | src/server.c:463-534 | runs that meet the fairness assumptions exist for every file below the id limit |
| `LogLines.KeyPrefix` | src/control_server.c:946-969 | a line still being written never changes the uid it was filed under |
| `LogLines.UidReads` | src/control_server.c:955-969 | a line that opens with the packet_uid field shows that uid if it has fewer than 64 characters, and none otherwise |
| `LogLines.DirectionReads` | src/control_server.c:974-986 | a line that opens with the direction field shows that direction if it has fewer than 32 characters |
| `LogLines.PacketTypeReads` | src/control_server.c:946-953 | a line that opens with the packet_type field is a packet line exactly when the type is not empty |
| `LogLines.FiledIff` | src/control_server.c:882-894 | a piece is filed exactly when its line names a packet type, and then under its uid, if it has one that fits |
| `LogLines.NotAPacketLine` | src/control_server.c:946-953 | a line without the packet_type field is not filed, whatever else it holds |
| `LogLines.LineTextReads` | src/control_server.c:883-887 | a newline, a carriage return before it, and everything from a NUL on are cut off |
| `LogLines.FirstPiece` | src/control_server.c:882 | fgets takes a line of fewer than 8191 characters with its newline, and 8191 characters of a longer one |
| `LogLines.PiecesSplit` | src/control_server.c:882-888 | cutting a log at a line start cuts what fgets returns at the same place, for lines of any length |
| `LogLines.PiecesPrefixKeys` | src/control_server.c:882-893 | every uid found in a log is found in every longer version of it |
| `PacketsScan.Cache.CachePut` | src/control_server.c:821-848 | overwrites one side of the uid's pair or appends a new pair; the array doubles when full |
| `PacketsScan.Cache.TrimLine` | src/control_server.c:883-887 | the loop leaves the C text of the piece without its trailing newlines and carriage returns |
| `PacketsScan.Cache.PutLine` | src/control_server.c:882-894 | a piece is filed under its uid exactly when it is a packet line with a uid that fits |
| `PacketsScan.Cache.ScanLogFile` | src/control_server.c:867-914 | folds every piece from the saved offset on into the cache and returns the offset to resume at |
| `PacketsScan.Rollback` | src/control_server.c:896-912 | the backward scan finds the offset just behind the last newline after the start, or the start |
| `PacketsCache.PutPairIsMapPut` | src/control_server.c:821-848 | on the uid-to-lines map a put changes that side of that uid and nothing else, and uids stay distinct |
| `PacketsCache.FullScanIsLatest` | src/control_server.c:821-914 | a full scan knows exactly the uids filed in either log, each with its last line in the server's log and its last line in the client's |
| `PacketsCache.ResumeAtLineStart` | src/control_server.c:896-912 | the saved offset is always the start of a line |
| `PacketsCache.ResumeAtLastLine` | src/control_server.c:896-912 | no newline comes at or after the saved offset, but for one at the very place the scan began |
| `PacketsCache.ShorterLogIsReread` | src/control_server.c:867-881 | a log that has become shorter than the saved offset is read from its start |
| `PacketsCache.PutForgotten` | src/control_server.c:821-848 | a line put early is forgotten when its uid is put again later |
| `PacketsCache.ResumeLosesNothing` | src/control_server.c:867-914 | folding a log and then its longer version from a line start equals folding the longer version once |
| `PacketsCache.FoldsCommute` | src/control_server.c:821-848 | the two logs' folds commute, since they touch different sides |
| `PacketsCache.IncrementalEqualsFullScan` | src/control_server.c:867-914 | after any history of appends cut at any byte, calls and restarts, the cache map after a call equals one full scan of the current logs, and both offsets are line starts |
| `PacketsFile.LoadOrphans` | src/control_server.c:1007-1039 | keeps exactly the old file's records whose uid the cache does not cover |
| `PacketsFile.PickLine` | src/control_server.c:1053-1069 | the line published for a pair: the sender's |
| `PacketsFile.ApiPackets` | src/control_server.c:988-1086 | the whole call: the cache is refreshed, and the new file is the rewrite of the old one by it |
| `PacketsFile.RecordsOfRender` | src/control_server.c:1007-1024 | reading back written lines gives their records, also when a line fills the read buffer |
| `PacketsFile.RewriteRecords` | src/control_server.c:1043-1078 | the rewritten file's records are the uncovered old ones and then one for each published pair |
| `PacketsFile.LineIsRecordIff` | src/control_server.c:1007-1024 | a line of the file adds one record, of its uid, exactly when it opens with a brace and names a uid |
| `PacketsFile.HistoryIsKept` | src/control_server.c:1012-1039 | a line of the old file that opens with a brace and names a uid the cache does not cover is in the new file |
| `PacketsFile.DirectionDecides` | src/control_server.c:1053-1069 | of two lines the client's is published exactly when the server's line says Client -> Server |
| `PacketsFile.RewriteKeepsOnePerUid` | src/control_server.c:1043-1078 | a rewrite keeps one line per uid |
| `PacketsFile.RunKeepsOnePerUid` | src/control_server.c:1000-1078 | from an empty file every run of appends, calls and restarts keeps one line per uid |
| `PacketsFile.FileAfterCall` | src/control_server.c:1000-1078 | after any history, a call leaves for every uid of the logs exactly its sender's line, if that opens with a brace, and for every other uid exactly the records the file had before |
| `PacketsFile.UidsAfterCallIff` | src/control_server.c:1000-1078 | after any history, the file's uids are those it had and those of the logs exactly when every sender's line in the logs opens with a brace |
| `PacketsFile.RewriteUidsIff` | src/control_server.c:1014-1017 | the new uid set is the union of the old file's and the cache's exactly when every published line opens with a brace |
| `PacketsFile.UnbracedLineIsLost` | src/control_server.c:1014-1017 | after one log line that opens with a quote and one call, its uid is cached and the line is in the file, but reading the file back does not find it |
| `PacketsFile.RewriteTwice` | src/control_server.c:1043-1078 | rewriting again from the same cache changes nothing |
| `PacketsFile.SecondCallChangesNothing` | src/control_server.c:988-1086 | in every reachable situation a second call leaves the file, the cached pairs and both saved offsets as the first left them |
| `TransferStats.SortOrders` | web/js/app.js:1632-1634 | the arrival order is by time and drops or invents no reception |
| `TransferStats.SortIsStable` | web/js/app.js:1632-1634 | receptions of one time keep their logged order |
| `TransferStats.PopLarger` | web/js/app.js:1639-1649 | the inner loop pops exactly the larger ids from the top and marks them and the newcomer, counting each id once |
| `TransferStats.MarkOutOfOrder` | web/js/app.js:1635-1651 | the one-pass stack marks exactly the ids with a smaller id arriving later or a larger id arriving immediately before |
| `TransferStats.NothingMarkedIffInOrder` | web/js/app.js:1635-1651 | nothing is marked exactly when arrivals are nondecreasing |
| `TransferStats.LateIdsCanStayUnmarked` | web/js/app.js:1614-1618 | arrivals 5, 0, 1, 2 mark 5 and 0 only, against the comment |
| `TransferStats.LateUnmarkedIff` | web/js/app.js:1614-1618 | a late id stays unmarked exactly when it comes for the first time right after a smaller one, comes again only in an unbroken run, and nothing smaller follows |
| `TransferStats.BothMarkedIff` | web/js/app.js:1614-1618 | both ids of every inversion are marked, as the comment has it, exactly when no late id is missed that way |
| `TransferStats.EarlyIsMarked` | web/js/app.js:1635-1651 | the earlier id of an inversion is always marked |
| `TransferStats.CountReceptions` | web/js/app.js:1585-1594 | the tally lists each received id once with how often it occurs |
| `TransferStats.CountDuplicates` | web/js/app.js:1605-1612 | distinct ids plus dupCount equals raw receptions; dupIds are the repeated ids |
| `TransferStats.RepeatedIff` | web/js/app.js:1605-1612 | an id is among the repeated ones exactly when it is received at two places |
| `TransferStats.CollectSent` | web/js/app.js:1575-1583 | sentIds is the set of sent ids and expectedCount one more than the largest |
| `TransferStats.CollectMissing` | web/js/app.js:1596-1603 | lost ids are the expected ones sent and not received; pending ids the expected ones not sent |
| `TransferStats.EveryIdAccounted` | web/js/app.js:1596-1659 | every expected id is exactly one of lost, pending, or sent and received |
| `TransferStats.ComputeTransferStats` | web/js/app.js:1555-1675 | every field of the result for a file transfer: the five sets, the expected count, and the counts as the sizes of the sets |
| `Base64.Base64Encode` | src/control_server.c:1445-1465 | the buffer holds the RFC 4648 text and its terminator exactly when it has room for 4 ceil(len/3) + 1 characters |
| `Base64.DemoBase64Encode` | src/demo_util.c:340-367 | returns 0 exactly when there is that room, and then holds the same text |
| `Base64.EmitGroup` | src/control_server.c:1448-1457 | one turn writes the four digits of the next three bytes, missing bytes read as zero |
| `Base64.PaddedIsEncode` | src/control_server.c:1458-1464 | overwriting the last digits with '=' after the loop gives the RFC 4648 padding |
| `Base64.GatherBlock` | src/demo_util.c:346-352 | the inner loop gathers up to three bytes into the 24-bit block |
| `Base64.TripleSextets` | src/control_server.c:1452-1456 | shifting and masking the 24-bit block gives the four six-bit groups of its bytes |
| `Base64.DecodeOfEncode` | src/demo_util.c:340-367 | a section 4 decoder recovers the input from the text |
| `Base64.DecodeIffEncode` | src/demo_util.c:340-367 | the strict decoder accepts exactly the encoder's texts |
| `Base64.EncodeShape` | src/demo_util.c:353-366 | the text has 4 ceil(len/3) characters, none of them NUL |
| `Base64.SextetsAreTheBits` | src/control_server.c:1448-1457 | the four six-bit groups are the 24 bits of the three bytes, first to last |
| `Base64.Vectors` | src/control_server.c:1445-1465 | the test vectors of section 10 of RFC 4648 |
| `BasicTransfer.TransferFile` | src/server.c:362-431 | sends the chunks in order with ids modulo 2^32, then TERMINATE with the digest; a stop seen before a chunk ends it there, with failure |
| `BasicTransfer.SendsAllIff` | src/server.c:385-431 | everything is sent, and the transfer succeeds, exactly when no stop is seen before the last chunk; otherwise the chunks before the stop are sent |
| `BasicTransfer.ReceiveFile` | src/client.c:590-685 | the loop's state equals the specification run, for every script of arrivals |
| `BasicTransfer.PacketOutcome` | src/client.c:602-676 | DATA with the expected id is written and counted; any other id, and any packet but TERMINATE, aborts; TERMINATE decides by the digest |
| `BasicTransfer.PacketKeepsPrefix` | src/client.c:602-626 | one packet of the transfer, in any order, keeps the output a chunk prefix |
| `BasicTransfer.AlwaysChunkPrefix` | src/client.c:590-676 | under any loss, repetition and reordering the temporary file is a chunk prefix of the input |
| `BasicTransfer.PrefixHoldsIff` | src/client.c:602-626 | that holds for all files of n chunks and all deliveries exactly when n is below 2^32 |
| `BasicTransfer.WrappedRun` | src/client.c:603-626 | at 2^32 chunks or more a repeated first chunk is taken for the next one |
| `BasicTransfer.InOrderArrives` | src/server.c:385-416 | delivered in order, a file of any size arrives whole and verifies |
| `BasicTransfer.SuccessIsWholeIff` | src/client.c:627-676 | success always means the whole file exactly when the digest separates it from its proper chunk prefixes |
| `Authentication.ServeAuthentication` | src/server.c:669-729 | datagrams sent and the verdict of the attempt loop equal the specification run, for every script |
| `Authentication.StrangersIgnored` | src/server.c:681-687 | removing all packets of other peers from any script changes neither datagrams nor outcome nor attempt count |
| `Authentication.NoDataBeforeAccept` | src/server.c:696-741 | in every run of either mode each DATA and each TERMINATE comes after a PASS_ACCEPT |
| `Authentication.NothingWithoutAccept` | src/server.c:696-741 | a server that has not accepted, or was stopped, fails and sends neither DATA nor TERMINATE |
| `Authentication.Serve` | src/server.c:661-746 | the server's whole conversation after JOIN_REQ in either mode: datagrams and result equal the specification run, with a stop at any point |
| `Authentication.Authenticate` | src/client.c:518-573 | the client's loop: verdict, attempts used and datagrams equal the specification run |
| `Authentication.OnClientCases` | src/client.c:526-573 | PASS_REQ draws the next password if there is one that can be sent; PASS_ACCEPT and REJECT decide; anything else aborts |
| `Authentication.AvailableIff` | src/client.c:212-218 | a password can be used exactly when it is one of the first three and fits a PASS_RESP |
| `Authentication.StepKeepsInv` | src/server.c:669-729 | every delivery and every stranger's packet keeps the joint invariant |
| `Authentication.CompleteRuns` | src/server.c:669-729 | in every complete fault-free run, with any number of strangers' packets, both ends accept exactly when one of the three passwords is right and all before it can be sent, after that many PASS_RESP; both reject exactly after three wrong ones |
| `Authentication.AtMostSevenDeliveries` | src/server.c:669-729 | no run delivers more than seven packets of its own |
| `Authentication.CanComplete` | src/client.c:518-573 | from every reachable state the exchange can be brought to its end |
| `Framing.Wire.WriteAll` | src/demo_util.c:134-144 | succeeds exactly when each of its sends moves something, and then has written exactly the given bytes; otherwise a prefix of them |
| `Framing.Wire.ReadAll` | src/demo_util.c:146-156 | fills the buffer with exactly the next bytes of the stream |
| `Framing.Wire.SendFrame` | src/demo_util.c:158-175 | succeeds exactly when the payload has at most 4096 bytes and each of its sends moves something; fragmented or not, the stream has then grown by the frame's bytes, after a failing send by a prefix of them, and for a longer payload not at all |
| `Framing.Wire.RecvFrame` | src/demo_util.c:177-191 | returns the first frame of the unread stream, or fails on a length over 4096 or a short stream |
| `Framing.ReadFrameOfBytes` | src/demo_util.c:177-191 | a frame is read back whatever follows it |
| `Framing.FrameLayout` | src/demo_util.c:158-175 | a frame byte by byte; it is sent exactly when its payload has at most 4096 bytes |
| `Framing.ReadFrameIff` | src/demo_util.c:177-191 | a stream has a first frame exactly when it holds the header, a length of at most 4096 and that many bytes |
| `Framing.ReadFramesOfStream` | src/demo_util.c:158-191 | a list of frames run together into one stream reads back as the same list |
| `Framing.Relay` | src/demo_util.c:134-191 | frames sent in any mix of fragment modes over arbitrary positive partial sends and receives arrive as the same list |
| `Hmac.XorTwice` | src/demo_util.c:313-315 | exclusive or with the same byte twice gives the byte back |
| `Hmac.XorBit` | src/demo_util.c:313-315 | a bit of the exclusive or is set exactly when it is set in one of the two bytes and not in both |
| `Hmac.HmacBlocks` | src/demo_util.c:278-306 | the two hashed blocks are the key, or its digest if it is over 64 bytes, filled with zeros and masked with 0x36 and 0x5c |
| `Hmac.ComputeHmac` | src/demo_util.c:278-306 | computes the HMAC-SHA-1 of section 2 of RFC 2104 |
| `TlsRecords.XorCrypt` | src/demo_util.c:308-316 | encrypts the given part of the buffer in place and touches nothing else |
| `TlsRecords.CryptTwice` | src/demo_util.c:308-316 | encrypting twice with one key gives the data back |
| `TlsRecords.CryptByte` | src/demo_util.c:308-316 | byte i is masked with the key byte at i modulo the key's length; an empty key masks nothing |
| `TlsRecords.RecordFields` | src/tcp_demo_server.c:40-62 | a record is the big-endian sequence number, the HMAC of that and the cipher text, and the cipher text |
| `TlsRecords.ComputeAppMac` | src/tcp_demo_server.c:20-38 | the MAC of sequence number and cipher text |
| `TlsRecords.BuildRecord` | src/tcp_demo_server.c:40-62 | for lengths whose sum with the 24 bytes of overhead does not wrap at 2^32: succeeds exactly when the record fits 4096 bytes, and then writes sequence number, MAC and cipher text |
| `TlsRecords.VerifyAppData` | src/tcp_demo_client.c:107-154 | accepts exactly as the specification does, decrypts the cipher text in place and appends it; a refusal changes nothing |
| `TlsRecords.GenuineRecord` | src/tcp_demo_client.c:107-154 | a genuine record is taken exactly when its sequence number is larger than the last, and gives up its plain text |
| `TlsRecords.AcceptsExactlyRecords` | src/tcp_demo_client.c:107-154 | a payload is taken exactly when it is such a record of some plain text |
| `TlsRecords.SendAppData` | src/tcp_demo_server.c:248-275 | the send loop emits one record per chunk with sequence numbers counted from one modulo 2^32 |
| `TlsRecords.ReceiveAppData` | src/tcp_demo_client.c:341-365 | the receive loop stops at the first refused record |
| `TlsRecords.RisingIsLongest` | src/tcp_demo_client.c:124-134 | the measured prefix is the longest with strictly increasing sequence numbers |
| `TlsRecords.WritesRisingPrefix` | src/tcp_demo_client.c:107-154 | for every list of genuine records the output is the plain text of its longest prefix with strictly increasing sequence numbers |
| `TlsRecords.InOrderWritesFileIff` | src/tcp_demo_server.c:248-275 | in-order delivery without repeats writes the whole file exactly when it has fewer than 2^32 chunks |
| `DnsNames.EncodeName` | src/dns_demo_client.c:44-67 | succeeds exactly when the labels are good and the wire form fits, and then writes the wire form of section 3.1 of RFC 1035 |
| `DnsNames.DecodeName` | src/dns_demo_client.c:69-107 | text, terminator and offset equal the specification's; nothing moves on failure |
| `DnsNames.DecodeOfWire` | src/dns_demo_client.c:69-107 | a wire name anywhere in a message decodes to its joined labels exactly when the text has at most 255 bytes |
| `DnsNames.JoinIsNameIff` | src/dns_demo_client.c:44-67 | joining the encoded labels gives the name back exactly when it does not end in a dot |
| `DnsNames.TwoLabels` | src/dns_demo_client.c:44-67 | two labels joined by a dot encode to length and bytes of each and a root byte, exactly when each has at most 63 bytes |
| `DnsNames.DecodeStops` | src/dns_demo_client.c:72-90 | where decoding stops and with what: the end, the root byte, a pointer, an unknown length form, a label cut short |
| `DnsNames.TrailingDotEncodes` | src/dns_demo_client.c:44-67 | one dot behind a name changes nothing in its wire form; behind an empty name or another dot the name is refused |
| `DnsNames.TrailingDotDropped` | src/dns_demo_client.c:69-107 | a carried name with a trailing dot is decoded without the dot, exactly when that leaves at most 255 bytes |
| `DnsNames.BuildResponse` | src/dns_demo_server.c:133-207 | succeeds exactly when the specification has a response, and writes it |
| `DnsNames.QueryLayout` | src/dns_demo_client.c:200-217 | the query byte by byte |
| `DnsNames.ResponseIff` | src/dns_demo_server.c:133-207 | there is a response exactly when the query holds a header and a whole name or nothing behind it, everything fits 1024 bytes, and the address is one |
| `DnsNames.ResponseLayout` | src/dns_demo_server.c:133-207 | the response byte by byte: flags 0x8580 with the response code, the question, and the one answer with its pointer, type, class, lifetime and address |
| `DnsNames.NameEndOfWire` | src/dns_demo_server.c:163-171 | the scan for the question's end stops at the name's root byte |
| `DnsNames.ResponseCarries` | src/dns_demo_server.c:133-207 | a response carries the question's name behind the header, and exists when it fits 1024 bytes |
| `DnsNames.ResponseReads` | src/dns_demo_client.c:243-247 | the response shows the client its own query id, the response bit, the response code, the answer count and the address |
| `DnsNames.NameComesBackIff` | src/dns_demo_server.c:133-207 | client to server and back: both sides decode the same name, with the offset just past the root byte, exactly for names of at most 255 bytes without a trailing dot |
| `MqttLength.EncodeRemainingLength` | src/mqtt_demo_server.c:86-97 | succeeds exactly when the field fits the buffer, and then writes it (section 2.2.3 of MQTT 3.1.1) |
| `MqttLength.DecodeRemainingLength` | src/mqtt_demo_server.c:100-113 | returns the value and size of a field of at most four bytes, without overflow |
| `MqttLength.FourBytesIff` | src/mqtt_demo_server.c:86-97 | four bytes hold exactly the lengths below 2^28 |
| `MqttLength.SizeIff` | src/mqtt_demo_server.c:86-97 | n bytes hold exactly the lengths below 128 to the n |
| `MqttLength.LengthByte` | src/mqtt_demo_server.c:86-97 | byte i holds the i-th seven bits of the length, and the top bit on all bytes but the last |
| `MqttLength.Borders` | src/mqtt_demo_server.c:86-97 | the border values of table 2.4 of MQTT 3.1.1 |
| `MqttLength.Shortest` | src/mqtt_demo_client.c:60-71 | no decodable field for a value is shorter than the encoder's, and only the encoder's is that short |
| `MqttLength.PrefixFree` | src/mqtt_demo_client.c:60-71 | no field is the beginning of another |
| `MqttLength.RoundTrip` | src/mqtt_demo_client.c:73-87 | before any suffix a length below 2^28 decodes to itself and its size, and no other does |

## Left out

- Sockets, `select`, name resolution, file handles, `rename`, and failures of `fread`, `fwrite` and `malloc`: the network is a sequence or set of packets, files are byte sequences, and a read is short only at the end.
- The wall clock: a timer check is given the set of chunks whose timeout has passed, any set at all, so the `last_send` field is not modelled.
- Signals: the stop flag is the end of a script, a parameter that says where a transfer first sees it, or a give-up event.
- The ranges of the environment variables: every theorem holds for any window size (progress for any positive one), so the bounds 2 to 64 are not needed. Port and packet-id-list parsing are not modelled.
- Logging, `LogEvent` and the log hex dumps, `sha1_to_hex` and `bytes_to_hex`: no effect on protocol state.
- `send_count` is an unbounded counter; the source's is an `int` that would take 2^31 resends of one chunk to overflow.
- The JOIN_REQ exchange before authentication, the interactive password prompt, and the session key derivation of the record layer: one message, terminal input, and a key that the records take as given.
- In the joint system the network delivers only what was sent in the direction concerned, and late packets of the authentication phase; a malformed datagram ends the loop it reaches, and a foreign one ends the client's and is ignored by the server's, as in the source.
- TlsRecords.BuildRecord: the switches that deliberately corrupt a MAC, a FINISHED message or a record number in the fault demonstrations are not modelled. The length test of the source adds `plain_len`, 4 and 20 in 32 bits, so it lets lengths within 24 of 2^32 pass; the callers pass at most 1000 bytes, and the model adds without wrapping.
- Base64.Base64Encode: what a truncated buffer holds besides its terminator is not stated; it is only not the encoding.
- Base64.TripleSextets: the shifts, masks and bitwise ors on non-overlapping fields are written as divisions, remainders and sums.
- Hmac.XorTwice: exclusive or is defined bit by bit on naturals, not on machine bit-vectors.
- DnsNames.DecodeName: following compression pointers, which the source skips too; the parts of a message behind the question's name are built but not decoded.
- DnsNames.BuildResponse: the text form of the answer address; its parse is a parameter, including a failing one.
- TransferStats.ComputeTransferStats: packet ids are integers; timestamps that do not parse, and the early return for protocols that do not transfer a file.
- PacketsCache.IncrementalEqualsFullScan: logs only grow between restarts. Truncating a log under a running cache resets the offset but not the cache, so the equality is not claimed there.
- PacketsFile.ApiPackets: the JSON response that echoes the file, and a rewrite interrupted half-way.
- The confidentiality and unforgeability of digests and MACs: they are functions, and separation of inputs is a hypothesis where a property needs it.
- HTTP, HTTP/2, WebSocket, OAuth2, SIP, RADIUS and QUIC-like demos, MQTT packets beyond the length field, process management, routing and the rest of the web page are not modelled.
