# Todero V3 session protocol: model and proofs

This project models the session protocol of Todero V3 in Dafny and proves what it promises.

A session has two ends, a client and a server, each a socket-free state machine. They shake hands, keep each
other alive with MSR frames, advertise queued messages, request them by id range, send them whole or in parts, deliver
them in order, and negotiate their timers. `Wire` is the byte format, `Layout` its fixed points; `Protocol` is what the
machines say to each other; `CoreSpec` gives the state machine as functions and `CoreMachine` as an object that updates
its fields and is proved to compute them. On top of it stand

- one machine on arbitrary input: `Receiver`, `MachineRuns`, `MachineSafety`, `CoreTimers`, `Reassembly`, and what it
  tells its surroundings: `Reports`, `Sends`, `Faults`, `Pulse`;
- two machines and the datagrams between them, which may be dropped, duplicated and reordered: `Delivery`, `Network`,
  `OrderedDelivery`, `Completeness`, `Requests`, `Handshake`, `Arrivals`, `QuietLoss`, `Keepalive`, `Renegotiation`,
  `Agreement`, `Disagreement`. A datagram is in flight until it has arrived once; a dropped one never arrives; an
  arrived one may arrive again;
- the runtimes that drive machines from a timer wheel: `TimerWheel`, `ClientRuntime`, `ClientPolls`,
  `ClientWatchdog`, `ClientTiming`, `ServerRuntime`, `ServerTimers`, `ServerIsolation`, `ServerReuse`, `ServerOutputs`,
  `Restart`;
- the stores the server keeps sessions in: `SessionStore`, `RecordLife`, `MemoryStore`, `DiskStore`,
  `ScanAgreement`;
- three self-contained pieces: the replay window (`Replay`, section 4.1.2.6 of RFC 6347), the ICE checklist (`Ice`,
  sections 5.1.2 and 6.1.2.3 of RFC 8445) and the STUN success-response parser (`Stun`, sections 15 and 15.2 of RFC 5389).

`dafny verify dfyconfig.toml` checks the whole project.

Times, path ids and message payloads are parameters. Deadlines are unbounded numbers; 8- to 64-bit fields carry their
width, and saturating additions, counters and the 16-bit length cast are written out.

## Where promise and code differ

- The encoder admits a payload of 65536 bytes and writes its length as 0. The round trip holds exactly below that
  (`Wire.DecodeOfEncode`, `Wire.FullPayloadDoesNotRoundTrip`).
- A range is asked for once, so a dropped request is never made good: there is a run after which nothing is ever
  delivered unless that datagram arrives (`Arrivals.DroppedRequestIsNeverMadeGood`).
- Requests, data and parts of messages count only while the receiver is established. So a message can be lost on a
  network that loses nothing: one that arrives while the client is reactivating is ignored, and is not asked for again
  (`QuietLoss.LostWithoutLoss`). In every run a message is received exactly when all that carries it has arrived in
  session (`Arrivals.ReceivedExactlyWhenArrived`, `Arrivals.DeliveredExactlyWhenAllArrived`); other losses, a lost
  HelloAck or keepalive, cost no message. Losing nothing is enough in smooth runs, those that send and hear in session
  (`Completeness.QuietRunDeliversEverything`).
- The responder commits to new timers before the proposer knows, a proposer commits exactly when the acceptance finds
  the proposal pending (`Renegotiation.ProposerCommitsAfterPeer`), and nothing orders commitments of the two sides. Peers
  part when an answer is lost, when proposals cross and when an older proposal is repeated, the last two with nothing
  lost (`Disagreement`). `Agreement.TimersEndEqualExactly` says when they end equal whoever proposes: when the
  last each has committed to is one and the same proposal, by id and proposer, and only then where different proposals
  ask for different timers. `Agreement.OneSidedEndsEqualExactly` says when that is so where one side alone proposes.
- At version 18446744073709551615 a compare-and-swap no longer changes the version, so there, and only there, a second
  one with the same expectation succeeds too (`SessionStore.SecondSwapWins`).
- The server does not purge the timers of a session that ended. A session that begins has one keepalive entry exactly
  when none was left over for its id, and keeps the left-over ones besides while it lives
  (`ServerReuse.KeepalivesAreStalePlusOne`); without reuse it has one (`ServerTimers.OneKeepalivePerSession`), and a poll
  between the two sessions takes a due entry away (`ServerReuse.PollClearsLeftOvers`).
- The two stores drop expired entries at different times: the in-memory one at every lookup, the disk one when it loads
  or scans. While the clock does not go back, all answers but those of scans agree (`SessionStore.StoresAnswerAlike`,
  `DiskStore.DiskAnswersLikeMemory`). Scans differ after a failed swap of an expired entry
  (`DiskStore.FailedSwapShowsInScan`). With room for all they name the same ids exactly when the calls before have left
  nothing over (`ScanAgreement.ScansAgreeIffNothingLeft`): if every scan has had room, when every id whose swap failed on
  an expired entry has since been loaded, deleted, written or scanned (`ScanAgreement.RoomyScansAgreeExactly`).
- A client whose disconnect window becomes shorter is not ended when the shorter window has passed: the next poll that
  ends it is one at which a disconnect entry is due (`ClientWatchdog.ShorterWindowIsMissed`,
  `ClientWatchdog.PollEndsExactlyWhenEntryDue`).
- A session's record holds the server's configured interval and window, not the negotiated ones its field name promises.
  A restart gives a session back the timers it ran on exactly when those were the server's own
  (`Restart.RestartRestoresExactly`, `Restart.NegotiatedTimersAreNotRestored`).
- Pair priorities keep their order exactly up to 2^31, which covers the range of RFC 8445; one above, two different
  pairs tie (`Ice.OrderedExactlyUpTo`).

## Model

| member | source | states |
|---|---|---|
| Wire.FromU8 | v3-wire/src/lib.rs:30-43 | a type code is accepted exactly when it is the code of some message type, and yields that type |
| Wire.DecodeOfEncode | v3-wire/src/lib.rs:73-136 | for every frame that encodes, decoding the bytes gives the frame back if and only if the payload length fits its 16-bit field |
| Wire.FullPayloadDoesNotRoundTrip | v3-wire/src/lib.rs:73-101 | the admitted payload of exactly 65536 bytes is written with length 0 and refused on decoding |
| Wire.EncodeOfDecode | v3-wire/src/lib.rs:103-163 | every byte string that decodes is the encoding of what it decodes to |
| Wire.DecodeIsInjective | v3-wire/src/lib.rs:103-163 | no two byte strings decode to the same frame |
| Wire.BlockOfDecodedTlvs | v3-wire/src/lib.rs:141-163 | what decodes as a TLV block is the block of its TLVs, never more than 64 of them |
| Wire.DecodeTlvsOfBlock | v3-wire/src/lib.rs:141-163 | decoding the block of a list of TLVs gives those TLVs when there are at most 64, else the too-many error |
| Wire.EncodeFrame | v3-wire/src/lib.rs:73-101 | the appending encoder writes exactly the frame layout or returns the error of the first check that fails |
| Wire.DecodeFrame | v3-wire/src/lib.rs:103-136 | the cursor-driven decoder returns what the layout says on every byte string |
| Wire.DecodeTlvBlock | v3-wire/src/lib.rs:141-163 | the TLV loop ends and returns the TLVs of the block, or the error of the first bad entry |
| Faults.DecodeFaults | v3-wire/src/lib.rs:103-136 | decoding fails on the first fault of the header, told by byte positions, else exactly on a fault among the TLVs |
| Faults.TlvFaults | v3-wire/src/lib.rs:141-163 | the first TLV of a block fails it if it is cut off, the sixty-fifth or too long |
| Faults.EncodeFaults | v3-wire/src/lib.rs:73-101 | which frames do not encode, and the error of the first fault |
| Layout.FrameLayout | v3-wire/src/lib.rs:73-101 | where version, type, flags, id, lengths, payload and TLVs of an encoded frame stand |
| Layout.MostSignificantFirst | v3-wire/src/lib.rs:88-99 | numbers stand most significant byte first |
| Layout.TypeCodes | v3-wire/src/lib.rs:16-28 | the nine message type codes |
| Layout.GoldenVector | v3-wire/src/lib.rs:225-239 | one frame byte for byte |
| Protocol.EncodingOfWellFormed | v3-core/src/lib.rs:726-739 | whatever a machine sends encodes, in at most 1034 bytes, and decodes to the intended frame |
| Protocol.FieldsOfFrame | v3-core/src/lib.rs:741-837 | a receiver reads back from a frame the ids, ranges, parts and MSR signal that were put into it |
| Protocol.EncodeProposalTlv | v3-core/src/lib.rs:787-817 | a timer proposal TLV has 28 bytes and reads back as the same id and the same three values |
| Protocol.EncodeAckTlv | v3-core/src/lib.rs:818-837 | an answer TLV has 5 bytes and reads back as the same id and verdict |
| Layout.MessageLayout | v3-core/src/lib.rs:741-837 | where the numbers of a status, a request, a proposal, an answer and a signal stand |
| Layout.FirstSignalDecides | v3-core/src/lib.rs:763-767 | of several signal TLVs the first decides, even if it is too short to be read |
| CoreMachine.EncodeMsg | v3-core/src/lib.rs:726-739 | on any message the bytes or the encoder's error: the bytes for every message a machine sends, the size error for a payload over the limit |
| CoreMachine.EncodeOwn | v3-core/src/lib.rs:726-739 | the encoding a handler makes never fails |
| CoreMachine.CoreMachine.constructor | v3-core/src/lib.rs:156-177 | a new machine is before its handshake, with empty queues and ids from 1 |
| CoreMachine.CoreMachine.BeginHandshake | v3-core/src/lib.rs:187-197 | a client greets and reports it, a server does nothing |
| CoreMachine.CoreMachine.OnDatagram | v3-core/src/lib.rs:199-292 | arbitrary bytes: undecodable ones are reported, foreign ids refused, anything else moves the deadline and is handled by type, then by its piggybacked signal |
| CoreMachine.CoreMachine.Dispatch | v3-core/src/lib.rs:222-277 | each frame type in each state has the effect, the output and the error of the state machine |
| CoreMachine.CoreMachine.HandlePiggyback | v3-core/src/lib.rs:279-289 | a frame other than an MSR that carries a signal TLV is also taken as that signal |
| CoreMachine.CoreMachine.OnTimer | v3-core/src/lib.rs:294-374 | each timer in each role and state has the effect and output of the state machine, and never fails |
| CoreMachine.CoreMachine.OnApiSend | v3-core/src/lib.rs:376-402 | a message is queued under the next id and, in session, advertised |
| CoreMachine.CoreMachine.OnApiClose | v3-core/src/lib.rs:404-416 | closing says goodbye once and loses the session |
| CoreMachine.CoreMachine.OnApiProposeTimers | v3-core/src/lib.rs:418-448 | a valid proposal in session is remembered with its expiry, sent and timed; any other is refused with the reason |
| CoreMachine.CoreMachine.OnPathEvent | v3-core/src/lib.rs:450-457 | only the current path changes |
| CoreMachine.CoreMachine.HandleMsr | v3-core/src/lib.rs:459-504 | negotiation TLVs first, in order, up to the first malformed one; then the signal |
| CoreMachine.CoreMachine.HandleTlvs | v3-core/src/lib.rs:469-501 | proposals and answers act in the order they stand |
| CoreMachine.CoreMachine.HandleProposal | v3-core/src/lib.rs:470-486 | a valid proposal is adopted and accepted, any other is rejected |
| CoreMachine.CoreMachine.HandleAck | v3-core/src/lib.rs:487-499 | only the answer to the pending proposal counts: it commits or drops it |
| CoreMachine.CoreMachine.HandleMsrSignal | v3-core/src/lib.rs:506-552 | counts, keepalives, reactivation and the request for what is newly advertised |
| CoreMachine.CoreMachine.ClientSignal | v3-core/src/lib.rs:514-532 | every fourth control MSR is answered; a signal ends reactivation |
| CoreMachine.CoreMachine.PullNew | v3-core/src/lib.rs:536-549 | exactly the advertised ids beyond the last request are asked for |
| CoreMachine.CoreMachine.HandleRequestRange | v3-core/src/lib.rs:554-606 | every queued message of the range is answered in order, or the call fails on one with too many parts |
| CoreMachine.CoreMachine.SendOne | v3-core/src/lib.rs:565-603 | a message goes out whole up to 992 bytes, else in 988-byte parts; it fails exactly when the parts outnumber 65535 |
| CoreMachine.CoreMachine.HandleData | v3-core/src/lib.rs:608-624 | a new message is taken in and what is in line delivered; a known one is ignored |
| CoreMachine.CoreMachine.HandleFragment | v3-core/src/lib.rs:626-667 | a part is kept; the last one missing completes the message |
| CoreMachine.CoreMachine.MergeChunks | v3-core/src/lib.rs:652-660 | the parts are joined in index order |
| CoreMachine.CoreMachine.FlushOrdered | v3-core/src/lib.rs:669-678 | everything next in line is delivered, each message once, up to the first gap |
| Receiver.FlushKeeps | v3-core/src/lib.rs:669-678 | delivery hands over consecutive ids with the payloads buffered for them, stops at the first gap, and changes nothing else |
| Receiver.FullAccumulatorMerges | v3-core/src/lib.rs:648-660 | as many chunks as the total, all with indices below it, are all the chunks: the missing-chunk error cannot happen |
| Receiver.AddFragmentKeeps | v3-core/src/lib.rs:626-667 | a fragment keeps received ids, buffer and accumulators consistent, and fails exactly on an index at or above its total or a total that differs from the first |
| Receiver.FirstPartStays | v3-core/src/lib.rs:640-650 | a part once held is not replaced, and what is held beside is the part that arrives |
| Receiver.HandleDataKeeps | v3-core/src/lib.rs:608-624 | any data payload keeps received ids, buffer and accumulators consistent |
| MachineSafety.TilesCoverOnce | v3-core/src/lib.rs:538-549 | every id up to the last requested one lies in exactly one requested range |
| MachineSafety.ValidationIsExact | v3-core/src/lib.rs:839-869 | a proposal is valid exactly when it is inside every bound and raises the miss count by at most two |
| MachineSafety.ApplyKeeps | v3-core/src/lib.rs:187-678 | every call on every input keeps the machine consistent, delivers only next ids and asks only for the next range |
| MachineSafety.EveryRunIsSafe | v3-core/src/lib.rs:187-678 | over every run on any input: ids are delivered 1, 2, 3, ... once each, requests tile 1 to the last requested id, and the configuration is the first one or inside every bound |
| MachineSafety.EveryEmissionEncodes | v3-core/src/lib.rs:726-767 | everything emitted in any run encodes under the machine's own id in at most 1034 bytes and decodes to what was meant |
| MachineSafety.LostIsFinal | v3-core/src/lib.rs:199-416 | a lost machine stays lost |
| Reports.DatagramTells | v3-core/src/lib.rs:199-292 | on any bytes a session that began, came back or ended, and a request made, is reported if and only if it happened; bytes that are no frame and foreign ids are reported as such |
| Reports.DeliveriesAreReported | v3-core/src/lib.rs:669-678 | whatever arrives, the messages reported delivered are those handed over, in the same order |
| Reports.DatagramMoves | v3-core/src/lib.rs:222-292 | on any bytes: which frames move a session and where to, and that exactly the greeting that starts a session is answered |
| Reports.TimersTell | v3-core/src/lib.rs:294-374 | timers report the end of a session, a proposal given up and a probe sent exactly when they happen, and nothing else |
| Sends.AnswersSayPosition | v3-core/src/lib.rs:199-292 | whatever arrives, everything sent in answer goes to the path it came by and says what has been delivered and queued by the end of the call |
| Sends.RepliesInOrder | v3-core/src/lib.rs:554-606 | a request is answered with queued messages of its range in the order of ids and parts, nothing twice |
| Sends.PathFollows | v3-core/src/lib.rs:199-221 | over every run the path of a machine is the last one it was heard from or told |
| Sends.CallsGiveOut | v3-core/src/lib.rs:187-457 | in every reachable state the application's calls give out the greeting, the advertisement of the new id, the goodbye, to the last path, and nothing else |
| Sends.ProposingGivesOut | v3-core/src/lib.rs:418-448 | in every reachable state a valid proposal in session is sent under a fresh id, reported and timed; any other changes nothing |
| Sends.ProposalIsAnswered | v3-core/src/lib.rs:469-486 | a proposal is answered by exactly one verdict, true to the bounds, and reported |
| Sends.RejectionDropsPending | v3-core/src/lib.rs:487-499 | a rejection drops and reports the pending proposal it is for, and changes nothing else |
| Faults.DatagramFaults | v3-core/src/lib.rs:222-292 | in every reachable state a datagram that is heard fails if and only if its frame has a fault, and with that fault |
| Pulse.ServerGivesUpExactly | v3-core/src/lib.rs:294-327 | in every reachable state a server's MSR timer sends one MSR to the last path and comes back after an interval, unless eight have gone out since it last heard anything: then, and only then, the session is lost |
| Pulse.ServerWindowExactly | v3-core/src/lib.rs:344-357 | in every reachable state a server's disconnect timer ends the session if and only if a window has passed since it last heard or sent |
| Pulse.EveryFourthIsAnswered | v3-core/src/lib.rs:506-532 | over every run a client answers exactly every fourth MSR it takes in since its session started |
| Delivery.DeliverMsg | v3-core/src/lib.rs:199-292 | the bytes of a sent message act on the receiver as that message |
| OrderedDelivery.MergeIsMessage | v3-core/src/lib.rs:574-660 | the parts of a message, joined, are the message |
| OrderedDelivery.DeliveredIsPrefixOfSubmitted | v3-core/src/lib.rs:376-678 | over every run of client and server on a network that drops, duplicates and reorders, each side receives a prefix of what the other submitted, byte for byte and in order |
| Completeness.SendableExactly | v3-core/src/lib.rs:565-580 | a message can be sent exactly when it has at most 65535 * 988 bytes |
| Completeness.QuietRunDeliversEverything | v3-core/src/lib.rs:376-678 | when nothing is lost, both sides stay in session and every datagram has arrived, each side has received all the other submitted |
| Requests.LostRequestsAreNeverRepeated | v3-core/src/lib.rs:538-549 | an id is received only if the one request that covers it arrived: a dropped request is never made good |
| Arrivals.ReceivedOnlyIfArrived | v3-core/src/lib.rs:608-667 | over every run nothing is received that has not arrived; in a smooth run, where data arrives in session, it is received exactly when it has |
| Arrivals.ReceivedExactlyWhenArrived | v3-core/src/lib.rs:222-667 | in every run, whatever the applications, timers and network do, a message has been received if and only if the datagram that carries it, or every part of it, has arrived while the receiver was established |
| Arrivals.DeliveredExactlyWhenAllArrived | v3-core/src/lib.rs:222-678 | so in every run all that was submitted has been delivered exactly when all that carries it has arrived in session; no other loss matters |
| Arrivals.UnarrivedRequestBlocks | v3-core/src/lib.rs:538-549 | while a request has not arrived, no message it asks for is received |
| Arrivals.DroppedRequestIsNeverMadeGood | v3-core/src/lib.rs:538-549 | for every message there is a smooth run to a request of it such that in no continuation without that datagram is anything delivered |
| QuietLoss.LostWithoutLoss | v3-core/src/lib.rs:263-292 | for every small message there is a run that loses it though every datagram arrives: the one that carries it arrives while the client is reactivating, is ignored, and ends the reactivation |
| Keepalive.CountIsBounded | v3-core/src/lib.rs:506-537 | without loss, in every reachable state the server's count is at most 4 times the client datagrams in flight, plus the client's count, plus the server MSRs in flight |
| Keepalive.FiringKeepsSession | v3-core/src/lib.rs:298-324 | so a server MSR timer does not lose a live session while 4 times the client datagrams plus the server MSRs in flight are at most 4 |
| Renegotiation.ProposerCommitsAfterPeer | v3-core/src/lib.rs:469-501 | on a lossy, duplicating network an arriving acceptance commits an endpoint exactly when its pending proposal has that id, then to the three values its peer has committed to before; else it changes nothing |
| Renegotiation.AcceptanceCommitsExactly | v3-core/src/lib.rs:487-499 | a machine reports and makes a commitment on an acceptance if and only if the id is that of its pending proposal |
| Renegotiation.AgreedMeansAdopted | v3-core/src/lib.rs:470-486 | a recorded commitment is to the proposal the message carries, and is the configuration the machine then has |
| Agreement.DeliveryCommits | v3-core/src/lib.rs:469-501 | a datagram commits a machine to what it reports, a valid proposal or its own pending one; nothing else in it changes the timers |
| Agreement.TimersAreLastCommitment | v3-core/src/lib.rs:187-501 | over every run, both sides proposing as they like: each side runs on the last proposal it committed to, or on its first timers |
| Agreement.TimersEndEqualExactly | v3-core/src/lib.rs:187-501 | whatever both sides propose from equal timers: if neither has committed, or both last reported one id, own on one side and the peer's on the other, the timers end equal, and where different proposals ask for different timers only then |
| Agreement.OneSidedEndsEqualExactly | v3-core/src/lib.rs:358-501 | where one side alone proposes, its commitments rise and are all among the responder's; the last ones agree exactly when the responder's last was answered in time and is the newest, and the timers end equal exactly then unless different proposals ask for the same timers |
| Disagreement.LostAckLeavesPeersApart | v3-core/src/lib.rs:358-369 | for every valid proposal a lost answer leaves the responder on the new timers and the proposer on the old |
| Disagreement.CrossingProposalsPart | v3-core/src/lib.rs:418-501 | for any two valid proposals, one from each side: with nothing lost, repeated, in flight or pending, each side ends on its own, and reports it last |
| Disagreement.RepeatedProposalParts | v3-core/src/lib.rs:418-501 | a repeated older proposal, still valid, takes the responder back after both had committed to a newer one, with nothing lost, in flight or pending |
| Reassembly.FragmentsRebuildMessage | v3-core/src/lib.rs:626-667 | parts in any order, repeated and mixed with other traffic, rebuild exactly their message, once, when and only when all have arrived |
| CoreTimers.DatagramTimers | v3-core/src/lib.rs:199-292 | a datagram that is heard moves the disconnect deadline one window on, may start a session with its two timers or drop a pending proposal, and does nothing else to timers |
| CoreTimers.TimerRules | v3-core/src/lib.rs:294-374 | timers never fail, never start a session, never revive a lost one |
| TimerWheel.EntriesCount | v3-client-runtime/src/lib.rs:132-143 | the ordered listing of slots holds each entry exactly as often as the wheel |
| TimerWheel.DueIsEarliest | v3-client-runtime/src/lib.rs:132-143 | a poll takes min(limit, due) entries in deadline order, and leaves no due entry earlier than one it takes |
| TimerWheel.LargePollTakesAll | v3-client-runtime/src/lib.rs:132-143 | with room enough every due entry is taken |
| TimerWheel.PushedComesLast | v3-server-runtime/src/lib.rs:390-398 | an entry scheduled comes behind those of its deadline and earlier ones, and before all later ones |
| TimerWheel.CollectDue | v3-server-runtime/src/lib.rs:191-202 | the slot-by-slot walk with its two limit checks collects exactly those entries |
| TimerWheel.Pop | v3-server-runtime/src/lib.rs:205-214 | finding and removing one entry, and its slot when empty, takes exactly one occurrence out |
| ClientRuntime.ClientRuntime.constructor | v3-client-runtime/src/lib.rs:59-67 | a new runtime has a new client machine and an empty wheel |
| ClientRuntime.ClientRuntime.OnDatagram | v3-client-runtime/src/lib.rs:85-93 | the machine takes the datagram; what it schedules enters the wheel once; a failed call leaves the wheel alone |
| ClientRuntime.ClientRuntime.BeginHandshake | v3-client-runtime/src/lib.rs:77-83 | the machine greets and the caller sees what it sent and reported |
| ClientRuntime.ClientRuntime.SendMessage | v3-client-runtime/src/lib.rs:95-101 | the message goes to the machine and the caller sees what it sent and reported |
| ClientRuntime.ClientRuntime.CloseSession | v3-client-runtime/src/lib.rs:103-106 | the machine closes and the caller sees what it sent and reported |
| ClientRuntime.ClientRuntime.ProposeTimers | v3-client-runtime/src/lib.rs:108-115 | the proposal goes to the machine and its timeout enters the wheel |
| ClientRuntime.ClientRuntime.OnPathChanged | v3-client-runtime/src/lib.rs:117-123 | the machine changes its path |
| ClientRuntime.ClientRuntime.IngestTimers | v3-client-runtime/src/lib.rs:276-287 | each scheduled timer enters its slot unless it is there |
| ClientRuntime.ClientRuntime.PollTimers | v3-client-runtime/src/lib.rs:125-162 | the entries due at the start are taken out and fired one by one, whatever the machine schedules meanwhile, and the poll never fails |
| ClientPolls.PollIsRunOfDueTimers | v3-client-runtime/src/lib.rs:125-162 | a poll leaves the machine where a lone one is after the timers of the due entries, and gives out exactly what that one gives out, in order |
| ClientWatchdog.EachTakenOnce | v3-client-runtime/src/lib.rs:132-153 | a poll takes each entry once and finds it in the wheel when its turn comes |
| ClientWatchdog.FireAllCounts | v3-client-runtime/src/lib.rs:145-159 | no entry is ever twice in the wheel; what was not taken stays, and what is new was scheduled |
| ClientWatchdog.EveryLifeIsSound | v3-client-runtime/src/lib.rs:77-162 | over every run no entry is doubled and every pending proposal has its timeout entry |
| ClientWatchdog.ExpiredProposalGoes | v3-client-runtime/src/lib.rs:125-162 | a large enough poll at or after its expiry clears a pending proposal |
| ClientWatchdog.SilenceEndsSession | v3-client-runtime/src/lib.rs:125-162 | with fixed timers and a steady clock, a large enough poll ends a session exactly when a full window has passed since the last datagram heard |
| ClientWatchdog.LargePollEndsExactly | v3-client-runtime/src/lib.rs:125-162 | from any state, a large enough poll ends the session exactly when the deadline has passed and some disconnect entry is due |
| ClientWatchdog.PollEndsExactlyWhenEntryDue | v3-client-runtime/src/lib.rs:77-162 | so over every run, however timers change and the clock moves |
| ClientWatchdog.ShorterWindowIsMissed | v3-client-runtime/src/lib.rs:125-162 | for every valid proposal of a shorter window there is a run after which no poll at the deadline ends the session: its only disconnect entry is the later one |
| ClientWatchdog.TimerLossMeansSilence | v3-client-runtime/src/lib.rs:125-162 | no poll, whatever its limit, ends a session sooner |
| ClientTiming.ProposalWaitsTwoIntervals | v3-core/src/lib.rs:418-448 | over every run a proposal not answered or replaced is pending after any poll before two intervals have passed, and given up and reported by a large enough one from then on |
| ClientTiming.ProbeFindsSilenceExactly | v3-core/src/lib.rs:329-342 | in every reachable state of an established client a probe that fires goes Reactivating, sends and reports if and only if more than interval times miss count have passed since the last datagram heard; otherwise nothing changes |
| ClientTiming.PollFindsSilenceExactly | v3-client-runtime/src/lib.rs:125-162 | so a poll that does not end the session makes it reactivate, report and send if and only if it takes a probe and the server has been silent for too long |
| SessionStore.StoresAnswerAlike | v3-store/src/lib.rs:62-86 | stores that start alike answer alike while the clock does not go back, however they drop expired entries |
| RecordLife.LoadAnswersLastWrite | v3-store/src/lib.rs:139-202 | over every history with a steady clock a load answers the record last written, under the version that write returned, if and only if it comes before the end of its time to live |
| RecordLife.LoadAfterDeleteAnswersNothing | v3-store/src/lib.rs:204-209 | a deleted id answers nothing until it is written again |
| RecordLife.WriteContinuesLoad | v3-store/src/lib.rs:153-202 | a write continues the version a load would have answered, from 1 when nothing is live; a swap succeeds if and only if it expects that version, else reports both |
| SessionStore.VersionCountsWrites | v3-store/src/lib.rs:153-202 | while an entry lives its version is its first one plus the writes since, up to the largest number |
| SessionStore.SecondSwapWins | v3-store/src/lib.rs:153-181 | of two compare-and-swaps expecting one version of one living entry, the first successful, the second succeeds if and only if the version is the largest number |
| SessionStore.ScanNamesAll | v3-store/src/lib.rs:211-242 | with room for all, a scan names exactly the expired entries |
| ScanAgreement.LeftoversAreTheDifference | v3-store/src/lib.rs:120-242 | over every history of calls the tables of the two stores differ exactly by the expired ids the calls have left over |
| ScanAgreement.ScansAgreeIffNothingLeft | v3-store/src/lib.rs:153-242 | while the clock does not go back, every call but a scan is answered alike, and scans with room for all name the same ids exactly when the calls before have left nothing over |
| ScanAgreement.LeftoversAreUnsettledSwaps | v3-store/src/lib.rs:153-242 | where every scan has had room, what is left over are the ids whose swap failed on an expired entry and that were since neither loaded, deleted, written nor scanned |
| ScanAgreement.RoomyScansAgreeExactly | v3-store/src/lib.rs:153-242 | so there the scans agree exactly when no such swap is unsettled |
| SessionStore.CollectExpired | v3-store/src/lib.rs:222-230 | the scan of a map names expired keys only, each once, and all of them if it stops below its limit |
| MemoryStore.FlatAfter | v3-store/src/lib.rs:116-118 | a change to one shard is a change to the flat map at that one id |
| MemoryStore.InMemorySessionStore.New | v3-store/src/lib.rs:101-110 | no shards is refused; otherwise the store is empty |
| MemoryStore.InMemorySessionStore.EffectiveEntry | v3-store/src/lib.rs:120-129 | a lookup returns the live entry, and drops an expired one |
| MemoryStore.InMemorySessionStore.Load | v3-store/src/lib.rs:139-151 | answers as the flat expiring map |
| MemoryStore.InMemorySessionStore.CompareAndSwap | v3-store/src/lib.rs:153-181 | writes exactly when the live version is the expected one, else reports the conflict |
| MemoryStore.InMemorySessionStore.Upsert | v3-store/src/lib.rs:183-202 | writes the next version, from 1 when nothing is live |
| MemoryStore.InMemorySessionStore.Delete | v3-store/src/lib.rs:204-209 | the id is gone from the flat map, nothing else changes |
| MemoryStore.InMemorySessionStore.ScanExpired | v3-store/src/lib.rs:211-242 | removes expired entries only, at most the limit, and below the limit leaves none in any shard |
| DiskStore.ReplayFailsAtFirstFault | v3-store/src/lib.rs:670-697 | replay fails exactly when a line is faulty, with the error of the first one |
| DiskStore.WhatIsRead | v3-store/src/lib.rs:821-836 | the log reads records of no version, version 0 and version 1, the snapshot those of version 1; every other line or record has its own error |
| DiskStore.ReplayTwice | v3-store/src/lib.rs:670-697 | replaying a log over its own result changes nothing |
| DiskStore.SnapshotLoads | v3-store/src/lib.rs:650-668 | a snapshot loads to the table it was taken of |
| DiskStore.CompactionStagesRecover | v3-store/src/lib.rs:607-629 | stopped after any of its writes, compaction leaves files that recover to the same entries |
| DiskStore.EachWriteIsOneStep | v3-store/src/lib.rs:607-629 | the temporary file, the rename and the truncation follow one after the other, and the log stays as it was until the last |
| DiskStore.LogFollowsCall | v3-store/src/lib.rs:701-813 | the log with a call's lines replays to the entries the call left |
| DiskStore.CutShort | v3-store/src/lib.rs:701-813 | with only some of a call's lines logged, the recovered store looks like the one before the call, or is the one after |
| DiskStore.EveryRunRecovers | v3-store/src/lib.rs:589-813 | over every run of calls, compactions and stops, opening the store again gives exactly the entries in memory |
| DiskStore.DiskAnswersLikeMemory | v3-store/src/lib.rs:701-813 | while the clock does not go back the disk store answers as the in-memory store does, scans apart |
| DiskStore.FailedSwapShowsInScan | v3-store/src/lib.rs:153-181 | a swap that fails on an expired entry drops it from the in-memory store and not from the disk store: the next scans differ by that id |
| DiskStore.DiskSessionStore.Open | v3-store/src/lib.rs:589-605 | the store opens exactly when snapshot and log are sound, on the recovered entries, else with the first error |
| DiskStore.DiskSessionStore.ReadSnapshot | v3-store/src/lib.rs:650-668 | the snapshot loop loads what recovery says |
| DiskStore.DiskSessionStore.ReplayLog | v3-store/src/lib.rs:670-697 | the replay loop applies what recovery says |
| DiskStore.DiskSessionStore.Load | v3-store/src/lib.rs:701-717 | a live entry is returned; an expired one is dropped and its deletion logged |
| DiskStore.DiskSessionStore.CompareAndSwap | v3-store/src/lib.rs:719-753 | the write is in memory and in the log, or neither |
| DiskStore.DiskSessionStore.Upsert | v3-store/src/lib.rs:755-781 | the write is in memory and in the log |
| DiskStore.DiskSessionStore.Delete | v3-store/src/lib.rs:783-789 | the deletion is in memory and in the log, even of nothing |
| DiskStore.DiskSessionStore.ScanExpired | v3-store/src/lib.rs:791-813 | what is removed is logged, entry by entry |
| DiskStore.DiskSessionStore.Compact | v3-store/src/lib.rs:607-629 | the directory after each write recovers to the entries; at the end the log is empty |
| ServerRuntime.ServerRuntime.OnDatagram | v3-server-runtime/src/lib.rs:138-182 | a datagram goes to the machine of its id, loaded or started if need be; undecodable bytes are reported; a machine's error leaves record and wheel alone |
| ServerRuntime.ServerRuntime.SendMessage | v3-server-runtime/src/lib.rs:238-252 | the message goes to its session; without a session nothing happens |
| ServerRuntime.ServerRuntime.PollTimers | v3-server-runtime/src/lib.rs:184-230 | the due entries are taken out and fired in order for the sessions that still exist, and the poll never fails |
| ServerRuntime.ServerRuntime.EnsureSessionLoaded | v3-server-runtime/src/lib.rs:266-317 | a session starts from its live record, else from the server's configuration, on the path it came by |
| ServerRuntime.ServerRuntime.LookUp | v3-server-runtime/src/lib.rs:278-303 | the record decides interval, window and peer; the miss count is always the server's |
| ServerRuntime.ServerRuntime.ApplyCoreOutput | v3-server-runtime/src/lib.rs:319-388 | events are reported, received messages twice, unrouted datagrams go back where they came from, timers enter the wheel, the session is settled |
| ServerRuntime.ServerRuntime.SettleSession | v3-server-runtime/src/lib.rs:351-386 | a lost session leaves memory and store, any other is recorded |
| ServerRuntime.ServerRuntime.IngestTimers | v3-server-runtime/src/lib.rs:390-398 | each timer is appended to its slot under the session's id |
| ServerOutputs.EachCallGivesOutAsLone | v3-server-runtime/src/lib.rs:138-252 | over every run from an empty store what a call gives out for a session is what a lone machine gives out for its inputs: datagrams routed, events in order, messages reported once more, nothing else |
| ServerOutputs.UnreadableIsReported | v3-server-runtime/src/lib.rs:138-182 | bytes that are no frame are reported as such and do nothing; any other datagram gives out only for the session of its id |
| Restart.RestartRestoresExactly | v3-server-runtime/src/lib.rs:266-388 | over every run a server started anew over the store gives a session its peer and the old server's interval and window, and its first greeting schedules by them, if and only if it was served less than a window before; the session gets back the timers it ran on exactly when those were the server's own |
| Restart.RestartKeepsOlderRecords | v3-server-runtime/src/lib.rs:266-317 | a record a server was started with and has not replaced is given back as it is |
| Restart.GreetingRestores | v3-server-runtime/src/lib.rs:266-317 | the first greeting after a start runs the session on the record that still lives, with the server's miss count, else on the server's timers |
| Restart.PeerNamesPath | v3-server-runtime/src/lib.rs:299-301 | a peer without a record is named after the path it came by, and told from any other |
| Restart.NegotiatedTimersAreNotRestored | v3-server-runtime/src/lib.rs:363-374 | for every valid proposal there is a run after which the session ran on it and a restart brings back the server's timers |
| ServerTimers.PollConservesWheel | v3-server-runtime/src/lib.rs:184-230 | after a poll each entry is in the wheel as often as before, less taken, plus scheduled |
| ServerTimers.OneKeepalivePerSession | v3-server-runtime/src/lib.rs:138-252 | an established session has exactly one server MSR entry, one before its handshake none, as long as the ids of ended sessions are not used again |
| ServerReuse.GreetingLeavesOneExactly | v3-server-runtime/src/lib.rs:138-182 | a greeting that starts a session leaves it one keepalive entry if and only if the wheel held none for its id |
| ServerReuse.KeepalivesAreStalePlusOne | v3-server-runtime/src/lib.rs:138-252 | over every run, ids used again included: while a session lives its keepalive entries are those left over when it began, plus one |
| ServerReuse.PollClearsLeftOvers | v3-server-runtime/src/lib.rs:184-230 | a large enough poll while an id has no session removes what was left over for it and is due |
| ServerReuse.ReusedIdHasTwoKeepalives | v3-server-runtime/src/lib.rs:351-398 | open, close and open again: the session has two keepalive entries |
| ServerIsolation.PollAlone | v3-server-runtime/src/lib.rs:184-230 | a poll does to a session what a poll of that session alone does, with the room the others left |
| ServerIsolation.SessionsAreIsolated | v3-server-runtime/src/lib.rs:138-252 | whatever else the server handles, each session has the machine, record and timers it would have on a server of its own |
| ServerIsolation.EachSessionIsALoneMachine | v3-server-runtime/src/lib.rs:138-252 | from an empty store each session's machine is a lone machine run on its own datagrams, messages and timers |
| Replay.ReplayWindow.constructor | v3-crypto/src/lib.rs:660-663 | the window is between 1 and 128 |
| Replay.ReplayWindow.Accept | v3-crypto/src/lib.rs:670-698 | accepts by bitmap; every shift it makes is below the width of the word, and the word keeps within 128 bits |
| Replay.WindowRefinesSet | v3-crypto/src/lib.rs:670-698 | for every window size and call history, a call is accepted exactly when it is the first, exceeds the maximum, or is inside the window and was not accepted before |
| Replay.NoReplay | v3-crypto/src/lib.rs:670-698 | no sequence number is accepted twice |
| Ice.OverflowExactly | v3-nat/src/lib.rs:107-111 | the 64-bit sum overflows for exactly one pair of priorities |
| Ice.PriorityOrder | v3-nat/src/lib.rs:107-111 | for priorities up to 2^31 pair priority orders by minimum, then maximum, then the larger local one, and is injective |
| Ice.OrderedExactlyUpTo | v3-nat/src/lib.rs:107-111 | that holds for all priorities up to a bound if and only if the bound is at most 2^31, so in the RFC 8445 range |
| Ice.ChecklistIsOrderedAndComplete | v3-nat/src/lib.rs:58-77 | the checklist holds each compatible pair once, highest priority first |
| Ice.PairedExactlyWhenAlike | v3-nat/src/lib.rs:58-77 | two candidates are paired if and only if they agree in component and transport; every pair starts frozen, not nominated, with their priority |
| Ice.CheckLoopVisitsEachOnce | v3-nat/src/lib.rs:79-105 | a check loop visits every pair exactly once in that order, and the nominated pair is the best one that checked ok |
| Ice.IceChecklist.constructor | v3-nat/src/lib.rs:58-77 | the nested loops and the sort build that checklist |
| Ice.IceChecklist.Next | v3-nat/src/lib.rs:79-83 | the first frozen pair is put in progress and returned |
| Ice.IceChecklist.Mark | v3-nat/src/lib.rs:85-94 | the result is recorded on the pair |
| Ice.IceChecklist.NominateBest | v3-nat/src/lib.rs:96-105 | of the pairs that checked ok, the last of highest priority is nominated, or none if there is none |
| Stun.ParseBindingSuccess | v3-nat/src/lib.rs:197-249 | the attribute loop stays in bounds, ends, and returns what a scan of the packet says |
| Stun.ParserInvertsEncoding | v3-nat/src/lib.rs:197-249 | for any other attributes before the address, the parser returns the encoded address, port and transaction id |
| Stun.AddressIsUnmasked | v3-nat/src/lib.rs:218-240 | address and port read are the bytes sent, bit by bit against the cookie |
| Stun.ScannedHasShape | v3-nat/src/lib.rs:218-246 | a packet is accepted only if it is other attributes followed by an IPv4 address attribute |

## Left out

- CoreMachine.CoreMachine.OnApiSend: takes for granted that the 64-bit message ids are not used up, since the source's increment has no answer to it.
- ClientRuntime.ClientRuntime.SendMessage: takes for granted that the machine's 64-bit message ids are not used up.
- ServerRuntime.ServerRuntime.SendMessage: takes for granted that the session's 64-bit message ids are not used up.
- Renegotiation.ProposerCommitsAfterPeer: speaks of runs in which neither side has used up its 32-bit proposal ids.
- Completeness.QuietRunDeliversEverything: speaks of runs in which sends happen in session and requests, data and advertisements arrive in session; outside them it fails (QuietLoss.LostWithoutLoss), and the condition for any run is that of Arrivals.DeliveredExactlyWhenAllArrived.
- ScanAgreement.ScansAgreeIffNothingLeft: promises nothing of the ids named by a scan without room for all expired entries, since a map is scanned in no fixed order.
- ClientWatchdog.SilenceEndsSession: speaks of a fixed timer configuration and a steady clock; the condition for any configuration and clock is that of ClientWatchdog.PollEndsExactlyWhenEntryDue.
- DiskStore.EveryRunRecovers: speaks of calls one after another; the source releases its lock before it appends or compacts, and interleaved callers are not part of this model.
- Clock exhaustion: deadlines are unbounded, so `now + window` never wraps.
- The end of the 64-bit message ids on the receiving side, where the next id to deliver would wrap.
- JSON, base64 and the log checksum: files hold values, a log line is blank, unreadable, of wrong checksum or an operation; torn lines and I/O errors do not occur.
- Poisoned locks, concurrent callers of one shard, and the Redis store, whose scripts run on another server.
- Counters for metrics and latency, which change nothing else; the metrics-only set of sent data ids.
- The unused virtual-host and selected-path fields of a server session and the events that need them.
- Server close, propose and path calls: the server runtime offers none; candidates, relay policy and NAT ticks are no-ops there.
- The C interface, the packet log, the JNI layer and the orchestrator interface, which pass calls on.
- The DTLS adapters and frame authentication, which call a foreign library or are stubs; key rotation, revocation and the amplification gate, which are single comparisons.
- TURN, consent checks, candidate gathering and the UDP transport; the fields of a candidate the checklist does not read.
- The checklist's sort is a stable insertion; the source uses the library's stable sort.
- Exclusive or in the STUN parser is written bit by bit on numbers of 8 and 16 bits.
- Scripts, packaging, the Android library and release documents.
