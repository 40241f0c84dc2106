# A Bedrock server, verified

A Dafny model of the parts of a Minecraft Bedrock server where mistakes are hardest to see, and proofs
of what those parts promise each other.

**The transport.** `Wire`, `Frames` and `Datagrams` are the codec; `Splits`, `Order` and `Retransmit`
the pieces of a session; `SessionSpec` one session as a state and its steps, and `Sessions` the session
object, each of whose methods is proved to perform the step of the same name. `log` fields in the state
are history: they record what happened and no step depends on them. `Reassembly` and `RetransmitRuns`
prove what the pieces keep over every run. `Sending`, `SendHistory` and `Sender` prove what a sender
keeps; `Receiver`, `Delivery` and `Endpoint` what a receiver keeps, seen against the record of what its
peer sent; `Calls` the calls that need no datagram. `Network` puts two sessions on a network that
remembers every datagram ever sent and delivers any of them at any time and any number of times, so it
loses, repeats and reorders. `Transport` states the results: delivery in order and exactly once,
acknowledgements sound and complete. `Refusals` and `Losses` say when a call loses payloads and that
nothing else does, `Stalls` what never gets through, `Closing` when a session is closed, and `Walks`
when an acknowledgement panics. What each step does is also stated in plain numbers, apart from the
functions that define it: `Layout` the bytes, `Timeouts` the deadlines, `Expiry` what expiry costs,
`Taking` frames from any peer, `Upkeep` acknowledgements, ticks and polls, `Answers` the replies, and
`RoundTrip` what one exchange of them settles.

**World to wire.** `Sections`, `Chunks` and `Worlds` are storage: palettes, columns, and lazy generation.
`GameBytes`, `LevelChunks` and `Subchunks` write a column, and define how a client reads one; `Columns`
joins the two and proves that reading gives the world back.

**Streaming.** `Batches` frames packets, `Ciphers` encrypts them, `CipherRuns` says what a payload that
fails its checksum does to the rest, `Streaming` decides which columns a player is handed, and `Servers`
does so through the player's encrypted stream. `EncryptedStream` and `EncryptedRuns` put the two ciphers
at the ends of the transport; `EndToEnd` follows a column from the world to the client.

Code that changes state in the server is a class here, with loops where it has loops; each method is
proved against a function, and the properties are lemmas about the functions. Integers are mathematical,
and wrap-around, truncation and saturation are written out where they can happen. Times are natural
numbers of nanoseconds; the lemmas about runs hold for clocks that jump.

Where the code does less than its purpose suggests, the code is modelled as it is, an input shows it
where one is needed, and the exact condition is proved:

- A released payload is lost when a reply in the same call is refused: the run in `LostPayload` ends with
  a list handed over that is no prefix of the list sent. The condition, which can be told from the session
  and the datagram before the call, is `Losses.LosesOn`; `Refusals.ReceiveLosesWhatIsRefused` proves it for
  a call and `Losses.EverythingUnlessRefused` for runs.
- A disconnect followed by a new connection in one call leaves a session open
  (`Closing.DisconnectThenConnect`); `Closing.ClosedAfterACall` says when it is closed.
- An accepted empty payload, and any payload when a datagram has no room for a fragment, holds up
  everything after it (`Stalls.NothingPassesAnEmptyPayload`).
- An acknowledgement with a range running backwards decodes and panics (`Walks.BackwardRangeDecodes`);
  nothing else panics there (`Walks.AckPanicsOnlyBackwards`).
- Backoff stops doubling at 32 retries (`RetransmitRuns.DoublingStops`, `RetransmitRuns.BackoffDoubles`).
- A write is refused when the palette it lands in is full (`Sections.FullPaletteRefuses`,
  `Sections.WithBlockChangesOnePoint`).
- A payload that fails its checksum uses up keystream and is not counted (`CipherRuns.OneAlteredByte`).
  The ends are then out of step for good as long as nothing passes that has not the length of what was
  sent in its place (`CipherRuns.InStepUnlessDisturbed`, `CipherRuns.FailureIsForGood`); a forgery could
  bring them back (`CipherRuns.AForgeryCatchesUp`).
- The server ignores a refused send after the cipher has advanced, so what is accepted later cannot be
  read (`EncryptedRuns.BatchesArriveInOrder`, and `EncryptedStream.AnotherCounterFails` for a cipher that
  shows it).

## Model

| member | source | states |
|---|---|---|
| Transport.PayloadsArriveInOrder | crates/bedrock-raknet/src/session.rs:259-398 | over every run of two sessions on a network that loses, repeats and reorders: what one end has released is exactly a prefix of the payloads the other accepted; what its caller was handed is a subsequence of the application payloads the other caller sent, and is all of those below the point reached if and only if none was dropped with a refused reply; nothing was dropped if no ping or connection request was sent that way |
| Transport.AnswersArriveInOrder | crates/bedrock-raknet/src/session.rs:259-398 | the same for the opposite direction of the same run |
| Losses.EverythingUnlessRefused | crates/bedrock-raknet/src/session.rs:347-398 | over every run, whatever is on the stream: what was handed over is all the application payloads below the point reached if and only if no call of the run was given a datagram that releases an application payload together with one whose answer is refused, a condition on the session as it stands before that call; and then it is a prefix of the application payloads sent |
| Losses.LostExactlyWhen | crates/bedrock-raknet/src/session.rs:391-397 | over every run, nothing has been lost exactly when no call met that condition |
| Losses.ApplicationPayloadsArePrefix | crates/bedrock-raknet/src/session.rs:344-398 | when the caller sends application payloads and no call meets that condition, what was handed over is a prefix of what was accepted, byte for byte, with keepalive pings and control packets between them and whatever was refused, expired or closed |
| LostPayload.DeliveredIsNotAPrefix | crates/bedrock-raknet/src/session.rs:391-397 | an input where delivery is no prefix: a keepalive ping overtakes an application payload, its answer does not fit the outbox, and of two payloads sent only the second is ever handed over |
| Transport.SoundArrives | crates/bedrock-raknet/src/session.rs:371-397 | one direction of the above, from the invariant of the pair of sessions |
| Transport.OnlyReceivedIsForgotten | crates/bedrock-raknet/src/retransmit.rs:170-188 | acknowledgement soundness over every run: a datagram that has left the in-flight map was received by the other end |
| Transport.NothingOutstandingMeansDelivered | crates/bedrock-raknet/src/session.rs:369-397 | acknowledgement completeness over every run: nothing in flight, and no failed call, expiry or first arrival below the dedup floor at the other end, means everything accepted was released and every application payload sent was handed over |
| Transport.EverythingReleased | crates/bedrock-raknet/src/order.rs:68-87 | the same for two sessions in step: the order index reached is the number of payloads accepted |
| Transport.AcknowledgementsCanBeWalked | crates/bedrock-raknet/src/datagram.rs:61-76 | every acknowledgement two sessions exchange has ranges whose start is not past their end, as the walk over the in-flight map needs, and names only datagrams received |
| Transport.ReplyIsRefusedWhenFull | crates/bedrock-raknet/src/session.rs:401-448 | handling a released payload fails exactly when it asks for an answer and the session is closed or has no room for that answer |
| Refusals.RefusedReplyLosesPayloads | crates/bedrock-raknet/src/session.rs:391-397 | a receive call that releases an application payload and then a ping, with the outbox full, fails, hands nothing over and has taken both: the payload is released and lost |
| Refusals.ReceiveLosesWhatIsRefused | crates/bedrock-raknet/src/session.rs:369-397 | a receive call of any datagram of the peer fails on an answer exactly when the condition below holds of the payloads it releases; then exactly the application payloads among those are lost and nothing is handed over, and otherwise exactly those are handed over |
| Refusals.HandlingFailsWhenRefused | crates/bedrock-raknet/src/session.rs:391-448 | handling a list of released payloads fails exactly when some asking payload is met while the session is closed (a disconnect before it with no new connection between), or while the outbox or the window plus the datagrams of the answers up to it would pass its limit |
| Refusals.MetIsExact | crates/bedrock-raknet/src/session.rs:391-448 | the first answer refused is the first payload for which that condition holds |
| Refusals.HandleAllMeets | crates/bedrock-raknet/src/session.rs:391-448 | handling stops at the first refused answer, and the connection state is the one after the payloads before it |
| Refusals.SendTakesWhatItNeeds | crates/bedrock-raknet/src/session.rs:259-338 | an accepted send adds exactly the datagrams it needs to the outbox and to the in-flight map: no sequence number is in use |
| Closing.ClosedIsForever | crates/bedrock-raknet/src/session.rs:236-238 | closed is absorbing across calls: over every run a closed session keeps its reason, sends nothing more and hands nothing over |
| Closing.ClosedAfterACall | crates/bedrock-raknet/src/session.rs:373-444 | within one receive call it is not: over all frames of the datagram, in any state and whether or not a reply is refused, the session is closed afterwards exactly when a disconnect among the payloads handled has no new connection after it, or it was closed and none of them is a new connection; the payloads handled are those released up to the first refused answer |
| Closing.ClosedAfterPayloads | crates/bedrock-raknet/src/session.rs:420-444 | the same for any list of payloads |
| Closing.DisconnectThenConnect | crates/bedrock-raknet/src/session.rs:420-444 | the input that shows it: a disconnect and then a new connection released in one call leave the session connected |
| Network.RunKeeps | crates/bedrock-raknet/src/session.rs:168-189 | every run keeps the two ends paired (what is sent is what the record says, what is received is part of it, each datagram is in flight or received) and the callers have seen exactly what the records say |
| Network.ActKeeps | crates/bedrock-raknet/src/session.rs:259-527 | one call of any kind at one end keeps the pair of sessions in step |
| Endpoint.ReceiveKeeps | crates/bedrock-raknet/src/session.rs:347-398 | receiving any datagram the peer ever emitted, at any time and any number of times, keeps the session in step with what the peer sent |
| Endpoint.FrameSetKeeps | crates/bedrock-raknet/src/session.rs:369-397 | the same for a frame set, whose sequence is noted before any frame is looked at |
| Endpoint.PeerSends | crates/bedrock-raknet/src/session.rs:259-307 | nothing the peer sends later changes what has been received |
| Endpoint.BatchDecodes | crates/bedrock-raknet/src/datagram.rs:135-187 | a datagram of the peer is received as it was sent, or refused whole, which happens exactly when its first frame carries an empty payload |
| Endpoint.AckTakesOut | crates/bedrock-raknet/src/retransmit.rs:170-188 | an acknowledgement takes out of flight exactly the sequences in its ranges and leaves the rest as they were |
| Receiver.TakeFrameKeeps | crates/bedrock-raknet/src/session.rs:374-390 | one frame of the peer, whatever came before: payloads leave in order; releasing anything means every frame of that payload has been taken; a refusal changes nothing that was released; and while nothing was refused the frame ends up in its place |
| Receiver.StoreKeeps | crates/bedrock-raknet/src/split.rs:189-249 | a stored fragment that completes a payload completes the one its order index names |
| Delivery.TakeFramesKeeps | crates/bedrock-raknet/src/session.rs:373-397 | the loop over a datagram keeps what was handed over a subsequence of the application payloads released, short by exactly the number lost |
| Delivery.HandleAllKeeps | crates/bedrock-raknet/src/session.rs:391-448 | handling released payloads hands on exactly the application payloads among them, and fails only if one asks for an answer |
| Calls.TickKeeps | crates/bedrock-raknet/src/session.rs:463-492 | a tick keeps the session in step with its peer |
| Calls.FlushAcksKeeps | crates/bedrock-raknet/src/session.rs:494-513 | what is acknowledged has been received |
| Calls.ResendKeeps | crates/bedrock-raknet/src/session.rs:477-481 | what is sent again is what was sent under that sequence |
| Stalls.NothingPassesAnEmptyPayload | crates/bedrock-raknet/src/frame.rs:232-235 | over every run: once a send of an empty payload is accepted, or any send with no room for a fragment in a datagram, the point reached at the other end never passes it, so neither it nor anything accepted after it is ever released |
| Sender.SendKeeps | crates/bedrock-raknet/src/session.rs:259-338 | every send, accepted or refused, keeps the record of what went out genuine: each frame a correctly numbered piece of the payload its order index names, every frame in some datagram, every new datagram in flight |
| SendHistory.GrownIsGood | crates/bedrock-raknet/src/session.rs:284-308 | numbering a payload's frames gives it a run of reliable indices of its own under one order index, and its split id no other payload has |
| SendHistory.GroupOf | crates/bedrock-raknet/src/session.rs:301-303 | the reliable indices between a payload's first and the next payload's first all carry its order index |
| Sending.SendIsAllOrNothing | crates/bedrock-raknet/src/session.rs:259-338 | send fails exactly when closed or when the datagrams needed do not fit the outbox or the window; a refusal changes only the split id spent; success queues exactly the reserved number, each within the payload limit, tracks each under its own sequence and moves the counters by what was sent |
| Sending.PackingKeepsEveryFrame | crates/bedrock-raknet/src/session.rs:284-307 | packing loses, repeats and reorders no frame and cuts no empty batch |
| Sending.PackingFits | crates/bedrock-raknet/src/session.rs:284-307 | no batch outgrows the datagram as long as no single frame does |
| SessionSpec.PackSize | crates/bedrock-raknet/src/session.rs:312-324 | the datagrams counted for the reservation are the batches the packing loop flushes |
| Sending.FlushingTracks | crates/bedrock-raknet/src/session.rs:326-338 | flushing tracks every batch under consecutive sequences, and the table holds nothing else new |
| Sending.FragmentsFit | crates/bedrock-raknet/src/split.rs:18-24 | every frame the splitter cuts fits a datagram of the configured size by itself and its length never saturates the bit-length field |
| Acks.AcknowledgementIsExact | crates/bedrock-raknet/src/session.rs:494-513 | for any received sequences in any order with repeats, the ranges sent are sorted, disjoint and not adjacent, and after encoding and decoding name exactly the sequences that were pending, up to the first 65535 ranges |
| Acks.CoalesceIsExact | crates/bedrock-raknet/src/session.rs:502-508 | coalescing ascending sequences gives separated ranges that contain exactly them |
| Sending.PackingIsTight | crates/bedrock-raknet/src/session.rs:284-307 | no datagram is cut short: each batch ends only where the next frame would have passed the budget |
| Sending.FragmentsFillTheLimit | crates/bedrock-raknet/src/split.rs:18-24 | a full fragment by itself fills its datagram to the last byte of the payload limit, or of the length field if that is lower; with a limit of 24 or less there is room for none |
| Upkeep.AckIsHeeded | crates/bedrock-raknet/src/session.rs:353-357 | receiving an acknowledgement, in any open session: the sequences in flight afterwards are exactly those before that it does not name, their entries and the outbox as they were; the estimate has taken in exactly the trip times of the entries sent once; nothing else changes but the time the peer was last heard |
| Upkeep.NackIsHeeded | crates/bedrock-raknet/src/session.rs:358-365 | receiving a negative acknowledgement: the bytes first tracked of what it names join the outbox at once, in order, as far as there is room; each entry is counted once for each range that names it and no other changes |
| Upkeep.EverythingHeardIsNoted | crates/bedrock-raknet/src/session.rs:347-371 | whatever an open session receives, the peer counts as heard from; a frame set, also a repeated one, is added to what is to be acknowledged, and nothing is taken from it |
| Upkeep.RefusedOnArrival | crates/bedrock-raknet/src/session.rs:347-352 | what does not decode is refused with its reason and changes nothing but the time heard; once closed everything is refused and nothing changes |
| Upkeep.UpkeepIsExact | crates/bedrock-raknet/src/session.rs:477-485 | acknowledging, sending again and expiring, in the numbers: one datagram that decodes to exactly what was pending, then the bytes of exactly the entries past their deadline in order of sequence, as far as there is room; exactly those entries counted and dated; exactly the reassemblies older than the timeout dropped |
| Upkeep.TickKeepsUp | crates/bedrock-raknet/src/session.rs:463-492 | a tick of a live session is that upkeep, and, when the last ping is old enough, a ping with the time the session has run, sent if there is room |
| Upkeep.TickCloses | crates/bedrock-raknet/src/session.rs:463-475 | a tick closes a session exactly when it is open and silent for the timeout, or its peer has been given up on, with the reason; closed already or closing, it does nothing else |
| Upkeep.PollTakesTheOldest | crates/bedrock-raknet/src/session.rs:254-256 | a poll takes the datagram queued longest ago, if there is one, and nothing else |
| RoundTrip.LeavesInOrder | crates/bedrock-raknet/src/session.rs:254-256 | over every run of two sessions: what an end has put on the wire and then what it has queued only ever grows at its end, so nothing overtakes, is dropped from the queue or slips in |
| RoundTrip.OneRoundTrip | crates/bedrock-raknet/src/session.rs:353-357 | from any state in which the other end can answer: it ticks, its first datagram goes out and is received, and then exactly what it had to acknowledge has left the in-flight map |
| RoundTrip.RoundTripSettles | crates/bedrock-raknet/src/session.rs:463-513 | after any run: if everything in flight is waiting to be acknowledged, one round trip leaves nothing in flight, and everything sent has been handed over unless the other end has failed a call, expired a reassembly or met an index too late |
| Answers.PongEchoesThePing | crates/bedrock-raknet/src/session.rs:424-436 | a ping is answered with a pong that carries its eight bytes of time, or zeros if it is cut short, and the session's own time |
| Answers.AcceptedEchoesTheRequest | crates/bedrock-raknet/src/session.rs:450-460 | a connection request is answered with the peer's address, this end's twenty times, the time in the request byte for byte, and the session's own |
| Answers.NothingElseIsAnswered | crates/bedrock-raknet/src/session.rs:401-448 | only those two are answered |
| Answers.AnswerIsSent | crates/bedrock-raknet/src/session.rs:401-448 | handling such a packet sends the answer exactly when the session is open with room for it, and otherwise fails and queues nothing |
| Answers.CloseSaysGoodbye | crates/bedrock-raknet/src/session.rs:516-523 | closing an open session sends a disconnect exactly when there is room, and closes in any case; once closed it does nothing |
| Taking.EachIndexOnce | crates/bedrock-raknet/src/session.rs:374-378 | at most once, whoever the peer is: after a reliable frame, whatever became of it and whatever came in between, another under its index releases nothing and changes nothing |
| Taking.UnorderedIsReleasedAtOnce | crates/bedrock-raknet/src/session.rs:374-390 | a whole payload that asks for no order is released at once, unless it is reliable and its index has been taken, and touches neither ordering nor reassembly |
| Sessions.Session.constructor | crates/bedrock-raknet/src/session.rs:193-213 | a new session is the initial state |
| Sessions.Session.Send | crates/bedrock-raknet/src/session.rs:259-266 | performs the specified send, whose all-or-nothing property is proved of the step |
| Sessions.Session.SendFrames | crates/bedrock-raknet/src/session.rs:268-309 | the reservation, and then the packing loop, lead to the specified state |
| Sessions.Session.Queue | crates/bedrock-raknet/src/session.rs:281-308 | the loop that numbers, packs and flushes frames step by step gives the batches of the specification, and no flush fails midway |
| Sessions.Session.FlushBatch | crates/bedrock-raknet/src/session.rs:326-338 | queues and tracks one datagram, or, with the window full, spends a sequence number and queues nothing |
| Sessions.CountDatagrams | crates/bedrock-raknet/src/session.rs:312-324 | the counting loop gives the specified number of datagrams |
| Sessions.Session.Receive | crates/bedrock-raknet/src/session.rs:347-398 | performs the specified step for acknowledgements, negative acknowledgements and frame sets, errors included, for every datagram but one naming a range that runs backwards (see Walks) |
| Sessions.Session.TakeOne | crates/bedrock-raknet/src/session.rs:375-390 | deduplication marks the index before the fragment is looked at |
| Sessions.Session.HandleInternal | crates/bedrock-raknet/src/session.rs:401-448 | answers control packets, follows the connection state and passes application payloads on, as specified |
| Sessions.Session.Tick | crates/bedrock-raknet/src/session.rs:463-492 | performs the specified tick: time-out and dead peer first, then acknowledgements, resends, expiry and keepalive |
| Sessions.Session.FlushAcks | crates/bedrock-raknet/src/session.rs:494-513 | sends what is pending as one coalesced acknowledgement and forgets it, also when the outbox is full |
| Sessions.CoalesceAll | crates/bedrock-raknet/src/session.rs:502-508 | the loop over sorted sequences gives the specified ranges |
| Sessions.Session.Close | crates/bedrock-raknet/src/session.rs:516-523 | queues a disconnect if there is room and closes in any case |
| Sessions.Session.PollTransmit | crates/bedrock-raknet/src/session.rs:254-256 | datagrams leave in the order queued |
| Splits.ChunksAreThePayload | crates/bedrock-raknet/src/split.rs:36-68 | fragments are the payload cut in order, none empty, none above the capacity, at least two of a payload that does not fit |
| Splits.Splitter.Split | crates/bedrock-raknet/src/split.rs:36-68 | a payload that does not fit spends exactly one split id |
| Reassembly.ReassemblyIsTheIdentity | crates/bedrock-raknet/src/split.rs:189-249 | fragments of any number of payloads with distinct ids, each arriving once, in any order and interleaving, as long as at each arrival the payloads then partly received and the arriving one fit the limits: not yet until the last missing fragment, then exactly that payload, and nothing is refused |
| Reassembly.PushIsGenuine | crates/bedrock-raknet/src/split.rs:189-249 | whatever was received before, a genuine fragment completes no payload but its own, and only when all its fragments have come; a refusal changes nothing |
| Reassembly.PushIsExact | crates/bedrock-raknet/src/split.rs:216-249 | a new fragment that is not refused completes its payload exactly when it was the last one missing |
| Reassembly.WholeHasAll | crates/bedrock-raknet/src/split.rs:235-241 | as many distinct indices below the count as the count are all of them |
| Reassembly.BooksBalance | crates/bedrock-raknet/src/split.rs:173-249 | over every run of push and expire, buffered is the sum of the lengths held and at most the limit, and at most the allowed number of reassemblies are open, none of them whole |
| Splits.PushKeepsAccounts | crates/bedrock-raknet/src/split.rs:189-249 | one push keeps the books whatever the peer sends, and every refusal leaves the whole state unchanged, also those made after a fresh entry may have been inserted |
| Splits.RefusalOpensNothing | crates/bedrock-raknet/src/split.rs:213-231 | a fresh entry is inserted before the count and duplicate checks, but neither can refuse what inserted one |
| Splits.PushDecides | crates/bedrock-raknet/src/split.rs:189-249 | a push in the order of the code is one decision, which has four reasons to refuse, and then the whole of the storing |
| Splits.PushRefusesExactly | crates/bedrock-raknet/src/split.rs:189-231 | a fragment is refused exactly when its count and index make no sense, it has too many, its payload would be one open too many, its bytes do not fit, or it contradicts or repeats what is held |
| Splits.ExpireIsExact | crates/bedrock-raknet/src/split.rs:173-184 | what is left after expiry is exactly what was opened less than the timeout ago, as it was |
| Expiry.ComesOutUnlessTooLate | crates/bedrock-raknet/src/split.rs:173-249 | over every run of fragments and expiries: a payload none of whose fragments is refused or repeated comes out at its last fragment, exactly, if and only if every expiry while it was open came before its first fragment was as old as the timeout; at every other fragment the answer is not yet; other payloads may expire, repeat and be refused |
| Splits.ExpireKeepsAccounts | crates/bedrock-raknet/src/split.rs:173-184 | expiry keeps the books and never raises what is buffered |
| Splits.Reassembler.Push | crates/bedrock-raknet/src/split.rs:189-249 | performs the specified push, and keeps the books |
| Splits.Reassembler.RefuseEarly | crates/bedrock-raknet/src/split.rs:194-211 | the checks made before an entry is looked up or inserted, in the order of the specification |
| Splits.Reassembler.RefuseLate | crates/bedrock-raknet/src/split.rs:220-231 | inserts the entry if it is new, and then checks its count and the index; a refusal leaves the table as it was |
| Splits.Reassembler.Join | crates/bedrock-raknet/src/split.rs:233-249 | stores the fragment and, when it was the last, takes the entry out and joins the payload |
| Splits.Reassembler.Expire | crates/bedrock-raknet/src/split.rs:173-184 | drops exactly the reassemblies past their time and gives back exactly their bytes |
| Order.OrderingDeliversThePrefix | crates/bedrock-raknet/src/order.rs:68-87 | over every run of pushes: what was released is exactly the first expected payloads, expected is the least index never taken, and fewer than a window of payloads is held, strictly inside the window ahead |
| Order.PushKeepsOrder | crates/bedrock-raknet/src/order.rs:68-87 | one push keeps that, and the only refusal is an index a whole window ahead, which changes nothing |
| Order.Ordering.Push | crates/bedrock-raknet/src/order.rs:68-87 | the drain loop releases the specified contiguous run |
| Order.DedupAgreesWithTheFullSet | crates/bedrock-raknet/src/order.rs:109-127 | over every run each index is accepted at most once; for every index no more than a window below the highest received, the next answer is "new" exactly when that index was not among all those received; the floor is the highest received less the window; at most window + 1 entries are kept |
| Order.AcceptAnswers | crates/bedrock-raknet/src/order.rs:109-127 | an index is new exactly when it was never accepted and is not below the floor |
| Order.Dedup.Accept | crates/bedrock-raknet/src/order.rs:109-127 | performs the specified step |
| RetransmitRuns.EstimateStaysInTheHull | crates/bedrock-raknet/src/retransmit.rs:38-50 | the smoothed round trip never leaves the hull of the measurements |
| RetransmitRuns.TimeoutStaysInItsLimits | crates/bedrock-raknet/src/retransmit.rs:53-58 | the timeout stays between its limits, and is the ceiling before the first measurement |
| RetransmitRuns.SteadyLinkSettles | crates/bedrock-raknet/src/retransmit.rs:38-50 | under a constant measurement r the estimate reaches [r - 7, r] within its distance, the variation falls to at most 7, and both stay |
| RetransmitRuns.SteadyStep | crates/bedrock-raknet/src/retransmit.rs:38-50 | one more equal measurement shortens the distance outside the band and keeps the estimate inside it |
| RetransmitRuns.BackoffIsMonotone | crates/bedrock-raknet/src/retransmit.rs:219-223 | more retries never wait less, and never longer than the ceiling |
| RetransmitRuns.BackoffDoubles | crates/bedrock-raknet/src/retransmit.rs:219-223 | the wait is min(max, base * 2^retries) if and only if there are fewer than 32 retries, or the base is zero, or base * (2^32 - 1) reaches the ceiling |
| RetransmitRuns.DoublingStops | crates/bedrock-raknet/src/retransmit.rs:219-223 | an input where doubling fails: base 1, 32 retries, a ceiling of 2^32 |
| RetransmitRuns.RecordsAgree | crates/bedrock-raknet/src/retransmit.rs:149-242 | over every run, of what is in flight: retries count the extra copies sent, the bytes are those first tracked, an acknowledgement over any ranges measures exactly the entries sent once, what is sent again by a timeout or a negative acknowledgement is the original bytes, and the window is never exceeded |
| RetransmitRuns.NackSendsOriginals | crates/bedrock-raknet/src/retransmit.rs:192-210 | what a negative acknowledgement sends again is, range by range and in order, the bytes first tracked of each sequence in flight |
| RetransmitRuns.AckMeasures | crates/bedrock-raknet/src/retransmit.rs:170-188 | an acknowledgement of any ranges updates the estimate with exactly the trip times of the entries it takes out that were sent once, in order |
| RetransmitRuns.SilenceIsNoticed | crates/bedrock-raknet/src/retransmit.rs:214-242 | an entry never acknowledged makes the peer dead within max_retries + 1 calls of due spaced by the longest wait, whatever else happens in between |
| Timeouts.DueIsExact | crates/bedrock-raknet/src/retransmit.rs:214-242 | a call of due sends again, counts and dates exactly the entries that have waited the timeout doubled once for each retry, or the ceiling (from 32 retries on the factor stays 2^32 - 1), and leaves every other as it was; the output is exactly their bytes in order of sequence; the peer is given up on exactly when an entry then has more retries than allowed |
| Timeouts.DueAtItsDeadline | crates/bedrock-raknet/src/retransmit.rs:219-227 | below 32 retries, an entry is sent again and counted if and only if the time is its deadline or later: sent at, plus the smaller of the timeout times 2^retries and the ceiling |
| Timeouts.NackIsExact | crates/bedrock-raknet/src/retransmit.rs:192-210 | an entry a negative acknowledgement names is counted once for each range naming it and dated anew; no other changes; the peer is given up on exactly as above |
| Timeouts.SampleIsExact | crates/bedrock-raknet/src/retransmit.rs:38-50 | one measurement moves the smoothed value by an eighth and the variation by a quarter, rounded down; the first sets both |
| Timeouts.TimeoutIsNearest | crates/bedrock-raknet/src/retransmit.rs:53-58 | the timeout is the value within the limits nearest to the smoothed value and four variations, and the ceiling before the first measurement |
| Timeouts.SteadyTimeout | crates/bedrock-raknet/src/retransmit.rs:38-58 | on a steady link the timeout settles between the trip less 7 and the trip and 28 nanoseconds, or at the limit next to that |
| Timeouts.RetriesTakeTheirTime | crates/bedrock-raknet/src/retransmit.rs:214-242 | over every run without negative acknowledgements, however often due is called: a peer is given up on only by a call that comes when some datagram has waited out one retry more than allowed, each wait at least the shortest timeout doubled once for each retry before it, or the ceiling |
| Walks.AckPanicsOnlyBackwards | crates/bedrock-raknet/src/retransmit.rs:170-188 | handling an acknowledgement does not panic exactly when every range starts no later than it ends, and then performs the specified step |
| Walks.NackPanicsOnlyBackwards | crates/bedrock-raknet/src/retransmit.rs:192-210 | the same for a negative acknowledgement |
| Walks.BackwardRangeDecodes | crates/bedrock-raknet/src/datagram.rs:61-76 | an input: ten bytes that decode to an acknowledgement with a range running backwards, at which the walk panics |
| Retransmit.Rtt.Sample | crates/bedrock-raknet/src/retransmit.rs:38-50 | performs the specified update |
| Retransmit.Rtt.Timeout | crates/bedrock-raknet/src/retransmit.rs:53-58 | computes the specified timeout |
| Retransmit.Retransmitter.Track | crates/bedrock-raknet/src/retransmit.rs:149-165 | tracks, or refuses a full window and changes nothing |
| Retransmit.Retransmitter.OnAck | crates/bedrock-raknet/src/retransmit.rs:170-188 | the walk over ranges of the map removes entries and samples them in the specified order |
| Retransmit.Retransmitter.OnNack | crates/bedrock-raknet/src/retransmit.rs:192-210 | returns exactly what the ranges name, counts each copy, and checks for a dead peer |
| Retransmit.Retransmitter.Due | crates/bedrock-raknet/src/retransmit.rs:214-232 | returns exactly what is overdue, in key order, with the timeout read before the walk |
| Layout.FrameLayout | crates/bedrock-raknet/src/frame.rs:200-222 | byte by byte: the flags, the length in bits big-endian, exactly the indices each reliability code calls for little-endian, the fragment fields big-endian, the payload |
| Layout.FirstByteDecides | crates/bedrock-raknet/src/datagram.rs:151-187 | the first byte alone decides what a datagram is: below 0x80 nothing, then a frame set, a negative acknowledgement from 0xa0, an acknowledgement from 0xc0 |
| Layout.FrameSetLayout | crates/bedrock-raknet/src/datagram.rs:137-148 | byte by byte: 0x80, the sequence little-endian, the frames end to end |
| Layout.AckLayout | crates/bedrock-raknet/src/datagram.rs:49-59 | byte by byte: the first byte, the count big-endian, and a record of four or seven bytes for each range |
| Frames.FrameRoundTrip | crates/bedrock-raknet/src/frame.rs:200-270 | a frame the format can carry is decoded to itself, leaving exactly what followed it |
| Frames.EmptyFrameRefused | crates/bedrock-raknet/src/frame.rs:232-235 | a frame with an empty payload does not decode |
| Frames.FrameBytes | crates/bedrock-raknet/src/frame.rs:164-179 | what is written is exactly as long as the encoded length counted for packing |
| Frames.Encode | crates/bedrock-raknet/src/frame.rs:200-222 | the writer appends the specified bytes |
| Frames.Decode | crates/bedrock-raknet/src/frame.rs:226-270 | the cursor reads the specified frame, or fails as specified |
| Datagrams.FrameSetRoundTrip | crates/bedrock-raknet/src/datagram.rs:137-187 | an encoded frame set decodes to the same sequence and frames, in order |
| Datagrams.AckRoundTrip | crates/bedrock-raknet/src/datagram.rs:49-76 | an acknowledgement decodes to its first 65535 ranges |
| Datagrams.EmptyPayloadRefused | crates/bedrock-raknet/src/datagram.rs:168-187 | a datagram whose first frame is empty is refused whole |
| Datagrams.Encode | crates/bedrock-raknet/src/datagram.rs:137-148 | the writer appends the specified bytes |
| Datagrams.Decode | crates/bedrock-raknet/src/datagram.rs:151-187 | the decode loop terminates because each frame uses up bytes, and gives the specified result or error |
| Datagrams.EncodeAck | crates/bedrock-raknet/src/datagram.rs:49-59 | the writer appends at most 65535 records |
| Datagrams.DecodeAckFrom | crates/bedrock-raknet/src/datagram.rs:61-76 | the cursor reads exactly the records counted |
| Wire.U24RoundTrip | crates/bedrock-raknet/src/wire.rs:109-160 | a 24-bit index reads back as the low 24 bits of what was written |
| Wire.U32RoundTrip | crates/bedrock-raknet/src/wire.rs:94-137 | big-endian 32-bit integers read back |
| Wire.U64RoundTrip | crates/bedrock-raknet/src/wire.rs:99-143 | big-endian 64-bit integers read back |
| Wire.Reader.Bytes | crates/bedrock-raknet/src/wire.rs:62-73 | a short read fails and does not move the cursor |
| Sections.SlotsAreDistinct | crates/bedrock-world/src/section.rs:37-42 | every position is its own slot |
| Sections.FromFn | crates/bedrock-world/src/section.rs:59-93 | a section built position by position shows the asked-for block everywhere and keeps the palette invariant, without an index array when it is all one block |
| Sections.GetIsTotal | crates/bedrock-world/src/section.rs:97-119 | exactly the positions inside have a block, which the palette holds; in a section judged empty it is air |
| Sections.WithBlockChangesOnePoint | crates/bedrock-world/src/section.rs:152-181 | a write succeeds exactly inside the cube while the palette has room, changes that one position, keeps the invariant and never shrinks the palette |
| Sections.FullPaletteRefuses | crates/bedrock-world/src/section.rs:152-181 | an input: a valid section, made by painting one corner 65536 times, whose palette is full and which no position of takes a block it has not got |
| Chunks.ColumnIsTotal | crates/bedrock-world/src/chunk.rs:96-99 | exactly the positions of the column have a block |
| Chunks.SetChangesOnePoint | crates/bedrock-world/src/chunk.rs:105-121 | a write to a column succeeds exactly inside it while the palette it lands in has room, and changes one position across section boundaries and below zero |
| Chunks.HeightSplits | crates/bedrock-world/src/chunk.rs:125-132 | a height is one offset in one section, rounding down below zero |
| Chunks.AboveIsEmpty | crates/bedrock-world/src/chunk.rs:86-92 | everything above the highest used section is air by name |
| Chunks.Chunk.SetBlock | crates/bedrock-world/src/chunk.rs:105-121 | performs the specified write in place |
| Chunks.Chunk.FromSections | crates/bedrock-world/src/chunk.rs:56-64 | refuses exactly what is taller than the dimension, and pads the rest |
| Chunks.Chunk.Empty | crates/bedrock-world/src/chunk.rs:42-48 | a column of air |
| Worlds.NewFlat | crates/bedrock-world/src/generator.rs:28-51 | the template is stone below the surface and air from it up at every position, also when the surface cuts a section |
| Worlds.CutSection | crates/bedrock-world/src/generator.rs:68-71 | a section the surface runs through |
| Worlds.Generate | crates/bedrock-world/src/generator.rs:59-64 | a generated column is never refused and is the template |
| Worlds.PositionsAreDistinct | crates/bedrock-world/src/world.rs:79-92 | a column and a place in it name one position of the world, on both sides of zero |
| Worlds.WorldIsItsHistory | crates/bedrock-world/src/world.rs:36-76 | over every run of looks, writes and unloads, every position shows the block last written there since its column was last unloaded, or else the natural one; writes that found no room do not count |
| Worlds.ColumnsStayOk | crates/bedrock-world/src/world.rs:36-76 | over every run every section of every column keeps the palette invariant |
| Worlds.World.Column | crates/bedrock-world/src/world.rs:36-41 | generating a column on demand changes nothing a reader of the world can see |
| Worlds.World.SetBlock | crates/bedrock-world/src/world.rs:67-75 | changes exactly one position of the whole world when it succeeds and none when it does not, and succeeds exactly inside the world with room in the palette |
| Worlds.World.Unload | crates/bedrock-world/src/world.rs:54-56 | puts the generated column back and touches no other |
| Worlds.World.BlockAt | crates/bedrock-world/src/world.rs:59-63 | reads what the world shows, and looking changes nothing |
| Worlds.World.constructor | crates/bedrock-world/src/world.rs:23-28 | a new world is natural everywhere |
| LevelChunks.BlockOffsetIs | crates/bedrock-protocol/src/level_chunk.rs:72-74 | the OR of the three shifted coordinates is their sum: no overlap |
| LevelChunks.WidthFits | crates/bedrock-protocol/src/level_chunk.rs:103-115 | every index of a palette of up to 65536 fits the chosen width, which is one the client reads, and a word's slots fit its 32 bits |
| LevelChunks.UnpackingGivesBack | crates/bedrock-protocol/src/level_chunk.rs:137-148 | slots of a packed word never overlap: unpacking one gives its index back |
| Subchunks.PackingRoundTrips | crates/bedrock-protocol/src/level_chunk.rs:134-149 | at every width from 1 to 16 bits, padding included, 4096 packed indices come back from the words |
| Subchunks.SubchunkReadsBack | crates/bedrock-protocol/src/level_chunk.rs:118-160 | a written subchunk reads back and leaves exactly what followed it |
| Subchunks.IdsComeBack | crates/bedrock-protocol/src/level_chunk.rs:118-160 | the runtime id a client finds at a slot is the one sent there |
| Subchunks.WriteSubchunk | crates/bedrock-protocol/src/level_chunk.rs:118-154 | the nested loops and the OR-accumulated word append the specified bytes |
| Subchunks.PackWord | crates/bedrock-protocol/src/level_chunk.rs:138-148 | the accumulated word is the specified one, stopping at the last block |
| Subchunks.WriteColumn | crates/bedrock-protocol/src/level_chunk.rs:168-185 | subchunks bottom first, then 24 biomes, then the border count |
| Subchunks.LevelChunk | crates/bedrock-protocol/src/level_chunk.rs:192-202 | the body as specified |
| Subchunks.PublisherUpdate | crates/bedrock-protocol/src/level_chunk.rs:212-221 | the body as specified |
| LevelChunks.WidthIsLeast | crates/bedrock-protocol/src/level_chunk.rs:103-115 | no narrower width the client reads holds every index |
| Layout.IndexLiesAt | crates/bedrock-protocol/src/level_chunk.rs:72-148 | the index of a place lies at slot 256x + 16z + y, so many slots to a word, the first in its low bits |
| Layout.UniformLayout | crates/bedrock-protocol/src/level_chunk.rs:157-160 | a cube of one block is version, layer count, header and the zigzag varint of its id |
| Layout.IndexedLayout | crates/bedrock-protocol/src/level_chunk.rs:118-148 | any other cube begins with version, layer count and a header that names the width, and then its words |
| Subchunks.PublisherReadsBack | crates/bedrock-protocol/src/level_chunk.rs:212-221 | a publisher update reads back as its point and its radius, every byte used |
| Columns.ColumnReadsBack | crates/bedrock-server/src/columns.rs:27-93 | for every valid column the body reads back, using up every byte, as a column at the same place that shows at all 16 x 384 x 16 positions the runtime id of the block there, or air when unknown; it stays below ten megabytes |
| Columns.EncodedShows | crates/bedrock-server/src/columns.rs:62-93 | re-linearised in the wire's axis order, every position still names its own block |
| Columns.Encode | crates/bedrock-server/src/columns.rs:62-93 | the triple loop fills the index array as specified |
| Columns.ColumnPacket | crates/bedrock-server/src/columns.rs:35-55 | the packet carries the body the reading-back lemma is about |
| Blocks.OnlyStoneIsStone | crates/bedrock-protocol/src/palette.rs:32-41 | stone without properties is written as 2706 and every other block as 13094 |
| Chunks.CountIsLeast | crates/bedrock-world/src/chunk.rs:86-92 | the sections sent stop behind the last one with a block other than air in its palette |
| Worlds.PositionIsItsParts | crates/bedrock-world/src/world.rs:79-92 | sixteen times the column and the place in it add up to the position, on both sides of zero |
| Blocks.AirIsWrittenAsAir | crates/bedrock-protocol/src/palette.rs:32-41 | a block that is air by name is written as air whatever its properties |
| Layout.VarintLayout | crates/bedrock-protocol/src/bytes.rs:218-228 | a varint is the base-128 digits of the value, low end first and as few as will do, each but the last with its top bit set |
| Layout.LittleFour | crates/bedrock-protocol/src/bytes.rs:200-211 | 32-bit integers have their low end first |
| Layout.BatchLayout | crates/bedrock-protocol/src/batch.rs:91-112 | a batch is 0xfe, then 0xff where it names its method, then its packets |
| GameBytes.VarintRoundTrip | crates/bedrock-protocol/src/bytes.rs:122-228 | a varint reads back, for every 32-bit value |
| GameBytes.ZigzagRoundTrip | crates/bedrock-protocol/src/bytes.rs:151-246 | a zigzag varint reads back, for every 32-bit integer |
| GameBytes.ZigzagIs | crates/bedrock-protocol/src/bytes.rs:244-246 | the shift and exclusive or interleave: 2v from zero up, -2v - 1 below |
| GameBytes.PrefixedRoundTrip | crates/bedrock-protocol/src/bytes.rs:163-268 | length-prefixed bytes read back and leave what followed |
| GameBytes.Reader.Varint | crates/bedrock-protocol/src/bytes.rs:122-132 | the loop reads the specified varint or fails after five bytes |
| GameBytes.Writer.Varint | crates/bedrock-protocol/src/bytes.rs:218-228 | the loop writes the specified varint |
| Batches.BatchRoundTrips | crates/bedrock-protocol/src/batch.rs:91-166 | any packets short enough for a 32-bit length decode, from both shapes of batch, to themselves with id and subclients cut to ten and two bits; hence to themselves exactly when the ids are below 1024 and the subclients below 4 |
| Batches.HeaderReadsBack | crates/bedrock-protocol/src/batch.rs:83-87 | the three header fields do not overlap |
| Batches.Encode | crates/bedrock-protocol/src/batch.rs:91-100 | the loop frames the packets as specified |
| Batches.EncodeWithMethod | crates/bedrock-protocol/src/batch.rs:107-112 | the method byte goes between marker and packets |
| Batches.DecodePacketsFrom | crates/bedrock-protocol/src/batch.rs:153-168 | the loop ends when the bytes are used up and gives the specified packets or error |
| Batches.Decode | crates/bedrock-protocol/src/batch.rs:115-124 | as specified, a wrong marker refused |
| Batches.DecodeWithMethod | crates/bedrock-protocol/src/batch.rs:130-150 | as specified, an unknown method refused and a compressed batch left unread |
| Ciphers.StreamsStayInStep | crates/bedrock-crypto/src/cipher.rs:118-153 | over every run of packet lists, reading in order what was encrypted gives the same lists, the counters stay equal, and the keystream stands at the sum of body lengths and checksums |
| Ciphers.OneBatch | crates/bedrock-server/src/server.rs:658-678 | one batch through the server's send and the other end's decrypt path |
| Ciphers.OneMessage | crates/bedrock-crypto/src/cipher.rs:118-153 | one packet decrypts to what was encrypted and leaves both ends in step |
| Ciphers.CiphertextIsMasked | crates/bedrock-crypto/src/cipher.rs:118-130 | each byte of a ciphertext is that of the plaintext, or of the checksum behind it, under the next byte of the keystream |
| Ciphers.ChecksumCovers | crates/bedrock-crypto/src/cipher.rs:106-116 | the checksum is the hash of the counter, low end first, the whole plaintext and the key |
| EncryptedStream.KeystreamIsNeverReused | crates/bedrock-crypto/src/cipher.rs:118-130 | over every run of batches, the stretch of keystream under a payload ends before the stretch under any later one begins |
| CipherRuns.InStepExactlyWhen | crates/bedrock-crypto/src/cipher.rs:118-153 | over every run of fewer than 2^64 payloads, sent, altered, cut, or never sent at all: the ends are in step exactly when as many payloads passed as were sent and as many bytes were unmasked as were masked |
| CipherRuns.InStepUnlessDisturbed | crates/bedrock-crypto/src/cipher.rs:133-153 | when only a payload of the length of the one sent in its place passes: the ends are in step exactly when no payload of at least eight bytes failed the comparison of its unmasked tail with the checksum, and none that was sent was cut below eight |
| CipherRuns.FailureIsForGood | crates/bedrock-crypto/src/cipher.rs:133-153 | for good: from the first payload that fails, or is cut, the ends are never in step again, under the same condition on what passes |
| CipherRuns.SentLessPassedNeverFalls | crates/bedrock-crypto/src/cipher.rs:118-153 | the number sent less the number passed never falls |
| CipherRuns.KeystreamsKeepTheirDistance | crates/bedrock-crypto/src/cipher.rs:118-153 | payloads altered in place leave the distance between the keystreams as it is; it grows exactly when something never sent, of at least eight bytes, is read |
| CipherRuns.OneAlteredByte | crates/bedrock-crypto/src/cipher.rs:145-149 | an input: with a keystream of zeros and a constant hash, a payload with one byte altered fails the comparison, and no run of payloads relayed after it, unaltered or altered in place, brings the ends back in step |
| CipherRuns.AForgeryCatchesUp | crates/bedrock-crypto/src/cipher.rs:133-153 | why the length matters: with a keystream of zeros and a constant hash, a payload cut in half passes and brings ends that were out of step back in |
| EncryptedRuns.ReadsExactlyThePrefix | crates/bedrock-server/src/server.rs:658-670 | over every run of the server's cipher, two sessions and the client's cipher, sends refused or not: when no payload of the stream passes in the place of an earlier one, the client reads the batches in order from the first exactly when the payloads handed to it are those encrypted, in order from the first |
| EncryptedRuns.BatchesArriveInOrder | crates/bedrock-server/src/server.rs:658-670 | over every run that loses nothing at the client: it reads the batches in order from the first if, and when no payload passes in the place of an earlier one only if, nothing has been handed to it beyond the sends accepted before the first refused one |
| EncryptedStream.CountingMistakesNone | crates/bedrock-crypto/src/cipher.rs:104-116 | with a keystream of zeros and the counter itself as checksum, no payload of any stream passes in the place of an earlier one: the condition above can be met, and there a refused send does end the reading |
| EncryptedRuns.NoneRefusedAllRead | crates/bedrock-server/src/server.rs:658-670 | in particular while no send is refused |
| Ciphers.Cipher.Encrypt | crates/bedrock-crypto/src/cipher.rs:118-130 | performs the specified step, buffer transformed in place |
| Ciphers.Cipher.Decrypt | crates/bedrock-crypto/src/cipher.rs:133-153 | performs the specified step, failures included |
| Ciphers.Cipher.ApplyKeystream | crates/bedrock-crypto/src/cipher.rs:126-140 | lays the keystream over a buffer in place |
| Streaming.StreamingKeepsUp | crates/bedrock-server/src/server.rs:543-652 | over every run of moves since the world was first streamed: the square in view has been sent, nothing beyond the margin is remembered, columns handed out are those remembered and those forgotten, each came under the latest publisher update which reaches it, and none came twice unless the centre went beyond the margin in between |
| Streaming.AroundIsTheSquare | crates/bedrock-protocol/src/level_chunk.rs:224-232 | the columns asked for are exactly the square |
| Streaming.StreamAroundKeeps | crates/bedrock-server/src/server.rs:569-610 | one streaming step keeps that and covers the view |
| Streaming.StreamedAroundThePlayer | crates/bedrock-server/src/server.rs:614-652 | after any run of moves the centre is the column the player stands in, the column of every block within sixteen times the radius of them along both axes has been sent, and none more than the radius and two columns from theirs is remembered |
| Servers.AskedFor | crates/bedrock-protocol/src/level_chunk.rs:224-232 | the two loops give the specified columns in order |
| Servers.Server.StreamAround | crates/bedrock-server/src/server.rs:569-610 | performs the specified step; the batches handed to the encrypted stream are the publisher update and then, in order, the new columns as the world has them; the world is unchanged |
| Servers.Server.StreamWorld | crates/bedrock-server/src/server.rs:543-560 | starts a player afresh and streams around spawn |
| Servers.Server.OnPlayerMoved | crates/bedrock-server/src/server.rs:614-652 | streams around the column the player stands in, and exactly when it is another than the last |
| Servers.Server.SendEncrypted | crates/bedrock-server/src/server.rs:658-670 | one batch through that peer's cipher and nobody else's, the payload given to the listener whatever the listener says; nothing is given to it without a cipher |
| Servers.Server.OnPayload | crates/bedrock-server/src/server.rs:405-416 | the decrypt path of a payload, failures included |
| EndToEnd.ColumnsReachTheClient | crates/bedrock-server/src/server.rs:602-604 | a column sent to a player is an application payload that a client in step decrypts and decodes to one packet whose body shows the world's column at every position |
| EndToEnd.ColumnsAreAccepted | crates/bedrock-server/src/server.rs:569-610 | whenever columns are streamed, the client reads first an update as a point and a radius in blocks, and then columns that radius reaches |
| EndToEnd.StoneIsSeenAsStone | crates/bedrock-server/src/columns.rs:35-93 | after any run of looks, writes and unloads, counting blocks: the client sees id 2706 where stone was last written or lies, and 13094 everywhere else |
| EndToEnd.FlatWorldIsSeen | crates/bedrock-server/src/columns.rs:35-93 | in a world nobody wrote to the client sees 2706 exactly below the surface, and 13094 from it up |
| EndToEnd.ReachableColumnsReadBack | crates/bedrock-server/src/columns.rs:35-93 | after any run of looks, writes and unloads, a client reading a column sees at each position the block last written there since the last unload, or the natural one |

## Left out

- Transport.PayloadsArriveInOrder: bounded to runs with at most 2^24 datagrams, reliable frames and ordered payloads and 2^16 split ids per end, because the wire carries 24-bit indices and 16-bit ids while the counters are wider; past that, indices repeat.
- Transport.NothingOutstandingMeansDelivered: asks for room for a fragment in a datagram, because with a payload limit of 24 or less an order index is spent with no frame.
- Datagrams.AckRoundTrip: only the first 65535 ranges, which is all the 16-bit count carries.
- Ciphers.StreamsStayInStep: batches read in the order encrypted; `EncryptedRuns` has the transport between, from server to client.
- EncryptedRuns.BatchesArriveInOrder: the payloads that set encryption up are taken to be accepted, and that no payload passes in the place of an earlier one is a hypothesis about the keystream and the hash.
- CipherRuns.InStepUnlessDisturbed: that only a payload of the right length passes is a hypothesis about the keystream and the hash; without it `CipherRuns.InStepExactlyWhen` still holds.
- Timeouts.RetriesTakeTheirTime: runs without negative acknowledgements, which ask for a retry at once, and limits with 0 < shortest timeout <= ceiling.
- Upkeep.TickKeepsUp: sequences to be acknowledged are below 2^24, as every run has them (`RoundTrip.AcksStaySmall`).
- EndToEnd.StoneIsSeenAsStone: columns below 2^27, whose blocks have 32-bit positions.
- Servers.Server.StreamWorld: the play status sent after the columns is left out.
- Servers.Server.SendEncrypted: `wire` is what is given to the listener, which may refuse it; what a refusal does to the stream is in `EncryptedRuns`.
- Sessions.Session.Receive: asks that no range of an acknowledgement runs backwards, where the server panics; `Walks` says exactly when that is.
- Streaming.StreamingKeepsUp: positions are whole blocks; the floating-point position and its rounding are not modelled.
- Streaming counts what is handed to the encrypted stream: without a cipher nothing goes out, yet the column is remembered as sent, as the server does.
- `Servers` asks for a view radius below 2^27 columns, where 32-bit products would overflow.
- Retransmission counters and durations are unbounded; the 32-bit retry count and the largest representable duration are not modelled.
- A negative acknowledgement is handled by `Retransmit` and by the session step, but no session sends one, so runs of two sessions contain none.
- Unconditional liveness: the code does not promise that a payload arrives once a fragment was refused or a reassembly expired.
- AES and SHA-256: functions about which only the eight bytes of checksum are known. Key agreement and token verification are not part of this model.
- Addresses are the bytes they are written as; the address codec is not part of this model.
- The listener: offline handshake, MTU discovery, advertisements, and the table of sessions.
- The server beyond streaming and the encrypted stream: login, resource packs, the start of the game, and the removal of per-peer state.
- Sharing of sections between columns as a memory cost: a section is a value, so one already handed out never changes.
- Fixed-layout packets and the readers and writers only they use.
