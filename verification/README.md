# Verification of the replication stack and its stream codecs

A model, in Dafny 4.11, of the peer-to-peer input replication in `peer/src` and of the stream
decoders it ships with in `peer/external`, with proofs of what they are for. `dafny verify
dfyconfig.toml` checks everything. Every induction is written out, none is left to the verifier's
automatic induction.

**Request, reply, acknowledge.** A `BiDirectionalRpc` node re-sends requests and replies over a
network that loses, duplicates and reorders packets, and holds requests back until those of older
barriers are done. A node has two roles that share no map. `RpcState` gives each handler as a function
on one role, `BiDirectionalRpc` is the class whose methods are proved against those functions,
`RpcLink` joins the client half of one node and the server half of the other over the set of
everything ever sent, `RpcRuns` proves safety over whole runs, `RpcDrain` the bound on draining one
direction, `RpcBoth` the bound for both, which compete for a node's re-sending, and `RpcTimes` what the
time stamps of a run are.
The state of a link also records what the application issued and answered, which the program does
not store; payload claims compare against that record.

**Clock.** `ClockSynchronizer` keeps the two time maps in step with the RPC maps (that is part of
`Valid()` of the node) and estimates an offset with an error bound. `RpcTimes` carries the bound to whole
runs of the link.

**Lockstep.** `ChronoState` is the value of a `ChronoMap` and the effect of its operations,
`ChronoMap` the class, `ChronoConvergence` the theorem that deliveries converge, `PeerState` the
owner that sends deltas in windows of three, `Lockstep` and `MyPeer` what peers read together, from
the updates of each player and the messages each peer happened to receive to the inputs and full
states they build.

**Streams.** The HTTP response reader is proved against the encoder of the test server: `HttpChunks` is
the chunked coding and one turn of its loop, `HttpPlaces` the reader in step with an encoding,
`HttpExtensions` size lines in pieces, `HttpPieces` what a loop over pieces keeps, `HttpHeader` and
`HttpFields` the header, `HttpBody` the whole response, `HttpServer` the test server, `HttpResponse` the methods, and
`HttpSpoilt` and `HttpFindings` the responses that are misread. `SoapBody`, `SoapPrinter`, `MiniXml`,
`XmlTags`, `XmlForms` and `NameValueList` are the bounded SOAP printer, the XML cursor parser and the
name/value list.
`MiniSsdp` is the device list of MiniSSDPd, `Base64` the text encoding, `NatPmp` the retry timer,
`MultiEndpointHandler` the endpoint failover.

Findings about the source, each a lemma below:

- The branch of `handleRequest` that re-sends a stored reply can never be taken; a lost reply is
  recovered only by the random re-sends (`RpcState.StoredReplyIsNeverResentOnRequest`).
- With fewer than ten host replies the clock's baseline is a sum, not a mean. After k of them the
  installed shift is k times what it should be (with equal delays), so it is wrong unless k = 1 or there
  is nothing to correct (`Clock.EarlyShiftExactly`, `Clock.SecondReplyDoubles`).
- Peers that agree on the players, and on which of them are down, may still build different full states:
  a player lost in mid-broadcast is used by the peers its last message reached and passed over by the
  others (`Lockstep.LostPlayerSplitsPeers`). `Lockstep.FullStatesAgreeExactly` and
  `Lockstep.FullStatesNeedEveryHolder` say exactly when they agree.
- A first block without keys makes the second block fatal, on the owner and on every replica
  (`PeerState.PlayOk`).
- A chunk extension cut by a segment end is read as part of the chunk size, exactly if what follows the
  cut looks like a digit (`HttpExtensions.LineInPieces`). The response is then wrong, digits beyond 32 bits
  and data that starts with a CR aside, unless it is the last chunk and the digits are zeros
  (`HttpSpoilt.ExtensionCutsExactly`, `HttpFindings.CutExtensionMisread`).
- A header name is accepted if it is any beginning of the name looked for, so a field `C: 3` cuts the
  body (`HttpHeader.NameIsAccepted`, `HttpFindings.OneLetterTruncates`).
- A Content-Length without a value takes its number from what follows, and as the last field from the body
  (`HttpHeader.FieldsThenReadsOn`, `HttpFindings.EmptyLengthCutsBody`).
- A Content-Length beside a chunked coding can end the response early (`HttpBody.LengthOverridesCoding`,
  `HttpFindings.LengthLosesChunks`).
- A SOAP action without arguments is itself listed as an argument with an empty value
  (`SoapBody.BodyIsReadBack`).
- An attribute value without quotes takes the '>' behind it along, so that the parser misses the end of the
  tag (`XmlForms.AttributeIsPassed`).
- Banning the active endpoint while it has no alternative may leave it active, and always does if it
  is the only endpoint (`Endpoints.SafeBanNeverLost`, `Endpoints.LastEndpointStays`).

## Model

| member | source | states |
|---|---|---|
| RpcRuns.BarrierOrder | peer/src/base/BiDirectionalRpc.cpp:181-291 | In every run, with any loss, duplication and reordering: while the server holds a request, every request of an older barrier the client ever issues has already been issued, answered and its reply received |
| RpcRuns.BarrierSeparates | peer/src/base/BiDirectionalRpc.hpp:39-42 | In every run, every id issued after a barrier() has a strictly greater barrier than every id issued before it |
| RpcRuns.NothingPassesABarrier | peer/src/base/BiDirectionalRpc.cpp:181-291 | While the server holds a request issued after a barrier(), everything issued before that call is answered and its reply received |
| RpcRuns.IssuedAfterBarrierWaits | peer/src/base/BiDirectionalRpc.cpp:242-254 | A request issued right after a barrier() is not sent while anything issued before it is pending |
| RpcRuns.NoStuckRequest | peer/src/base/BiDirectionalRpc.cpp:146-266 | In every reachable state a request that is still outgoing and that the server has processed has its reply stored, equal to the given answer, and on the wire |
| RpcRuns.AckMeansDone | peer/src/base/BiDirectionalRpc.cpp:120-222 | An acknowledgement ever sent means the client has that request neither outgoing nor delayed, then and at every later point, so the server drops a reply only after the client has it |
| RpcRuns.AcceptedOnce | peer/src/base/BiDirectionalRpc.cpp:146-179 | Over a run a request enters incomingRequests at most once, with the payload it was issued with |
| RpcRuns.AnsweredOnce | peer/src/base/BiDirectionalRpc.cpp:256-266 | Over a run a request is replied to at most once, PING and SHUTDOWN included |
| RpcRuns.CollectedOnce | peer/src/base/BiDirectionalRpc.cpp:181-222 | Over a run a request yields at most one incoming reply, whose payload is the one given to reply; a one-way request yields none |
| RpcRuns.ControlRequests | peer/src/base/BiDirectionalRpc.cpp:163-177 | In every state of every run, no PING or SHUTDOWN is held for the application; whichever was answered was answered with PONG or SHUTDOWN_REPLY respectively |
| RpcRuns.StageNeverDrops | peer/src/base/BiDirectionalRpc.cpp:146-291 | No step moves a request back along delayed, outgoing, at the peer, replied, received, acknowledged |
| RpcRuns.RunExtends | peer/src/base/BiDirectionalRpc.cpp:146-291 | Later states of a run keep issued and given payloads, and new requests have at least the barrier of the earlier state |
| RpcRuns.RunInv | peer/src/base/BiDirectionalRpc.cpp:146-291 | The invariant holds in every state of every run |
| RpcDrain.DrainBound | peer/src/base/BiDirectionalRpc.cpp:72-84 | From any state of the invariant, one loss-free round for each distinct pending barrier empties all request queues and stored replies, and everything issued is answered |
| RpcDrain.RoundFinishesABarrier | peer/src/base/BiDirectionalRpc.cpp:181-291 | A round finishes exactly the front barrier: the pending barriers strictly shrink |
| RpcDrain.RoundEffect | peer/src/base/BiDirectionalRpc.cpp:72-84 | What one round leaves pending, held and stored |
| RpcDrain.RoundExists | peer/src/base/BiDirectionalRpc.cpp:72-84 | A round can be played from every state of the invariant, so the bound is not about nothing |
| RpcBoth.JointDrainBound | peer/src/base/BiDirectionalRpc.cpp:72-84 | Both directions at once, where a node re-sends requests only while it stores no reply: from any states of the two invariants, as many loss-free cycles (one node's re-sending, then the other's) as both directions have distinct pending barriers together, and two more, empty every queue of both nodes, and everything issued is answered |
| RpcBoth.OtherDirectionWaits | peer/src/base/BiDirectionalRpc.cpp:72-84 | Why the bound adds the directions up: while the first node has requests to re-send and stores no reply, a cycle finishes one of its barriers and leaves the second node's requests where they are |
| RpcBoth.CycleProgress | peer/src/base/BiDirectionalRpc.cpp:72-84 | Every cycle brings the settled pair nearer to its end |
| RpcBoth.CycleSettles | peer/src/base/BiDirectionalRpc.cpp:72-84 | After any cycle the second node stores no reply, and what the first stores answers all that the other has outgoing |
| RpcBoth.CycleExists | peer/src/base/BiDirectionalRpc.cpp:72-84 | A cycle can be played from every pair of states of the invariants |
| RpcTimes.SendTimeIsFirstSend | peer/src/base/BiDirectionalRpc.cpp:242-289 | In every run, the stored send time of an outgoing request is the client's reading at the step that first sent it, directly or by a release |
| RpcTimes.ReplyStamps | peer/src/base/BiDirectionalRpc.cpp:146-372 | In every run, a reply on the wire carries the server's readings at the step that accepted its request and at the step that sent that copy, in this order |
| RpcTimes.FirstReplyIsExchange | peer/src/base/ClockSynchronizer.cpp:6-32 | Given only that one clock runs a fixed offset ahead of the other and that time does not run backwards, the four stamps of the first reply to any request are an exchange with the host, whatever was lost, repeated or reordered |
| RpcTimes.RunShiftError | peer/src/base/ClockSynchronizer.cpp:6-67 | So over any run of the link whose client got ten or more first replies, the shift it installs misses the negated offset by at most the mean of the ten single bounds and 1.4 microseconds, the optimizer's reading apart |
| Rpc.FirstReplyError | peer/src/base/BiDirectionalRpc.cpp:192-222 | What the first host reply installs, in terms of the four stamps: if they are an exchange with the host, the shift misses the negated offset by at most half the asymmetry plus rounding |
| Rpc.SlowAnswerIsNoOffset | peer/src/base/BiDirectionalRpc.cpp:214-219 | An input: a host one second ahead, 5 ms away, that takes two seconds to answer; the shift is minus one second |
| RpcLink.InvInit | peer/src/base/BiDirectionalRpc.cpp:8-15 | Two fresh nodes satisfy the invariant |
| RpcLink.InvStep | peer/src/base/BiDirectionalRpc.cpp:146-291 | Every step of the link keeps the invariant, whatever old message it delivers |
| RpcLink.ClientInvIssue | peer/src/base/BiDirectionalRpc.cpp:224-254 | Issuing keeps the barrier order of sent and pending requests |
| RpcLink.ClientInvUsefulReply | peer/src/base/BiDirectionalRpc.cpp:192-222 | A reply to an outgoing request finishes it and releases only requests of the next barrier |
| RpcLink.InvOldReply | peer/src/base/BiDirectionalRpc.cpp:186-191 | A duplicate reply changes nothing but the acknowledgements |
| RpcLink.InvReceiveRequest | peer/src/base/BiDirectionalRpc.cpp:146-179 | Any request ever sent may be delivered again without breaking the invariant |
| RpcLink.InvReceiveAck | peer/src/base/BiDirectionalRpc.cpp:120-136 | Any acknowledgement ever sent may be delivered again without breaking the invariant |
| RpcState.IssueOk | peer/src/base/BiDirectionalRpc.cpp:242-254 | A request of the current barrier keeps: outgoing requests share one barrier, delayed ones are strictly later and never wait for nothing, and the keys of requestSendTimeMap are those of outgoingRequests |
| RpcState.EraseAndReleaseOk | peer/src/base/BiDirectionalRpc.cpp:195-204 | Erasing an outgoing request and releasing the next barrier keeps the barrier discipline |
| RpcState.OnReplyOk | peer/src/base/BiDirectionalRpc.cpp:181-222 | Every reply, useful or old, keeps the client's bookkeeping, the clock map included |
| RpcState.OnRequestOk | peer/src/base/BiDirectionalRpc.cpp:146-179 | Every request keeps: the keys of requestReceiveTimeMap are those of incomingRequests and outgoingReplies together |
| RpcState.OnAckOk | peer/src/base/BiDirectionalRpc.cpp:120-136 | Every acknowledgement keeps the server's bookkeeping |
| RpcState.AnswerOk | peer/src/base/BiDirectionalRpc.cpp:256-266 | Replying keeps the server's bookkeeping |
| RpcState.StoredReplyIsNeverResentOnRequest | peer/src/base/BiDirectionalRpc.cpp:152-161 | A request whose reply is stored has been seen, so the branch that re-sends the reply on a request is never taken |
| RpcState.LowestBarrierIsUnique | peer/src/base/BiDirectionalRpc.cpp:275-278 | The lowest delayed barrier does not depend on the iteration order |
| Rpc.BiDirectionalRpc.constructor | peer/src/base/BiDirectionalRpc.cpp:8-15 | A new node is empty and valid |
| Rpc.BiDirectionalRpc.Barrier | peer/src/base/BiDirectionalRpc.hpp:39-42 | Raises the barrier by one, changes nothing else, and keeps the node valid |
| Rpc.BiDirectionalRpc.Request | peer/src/base/BiDirectionalRpc.cpp:224-231 | The request goes out under the current barrier, or waits behind older ones; no clock check can fire |
| Rpc.BiDirectionalRpc.RequestOneWay | peer/src/base/BiDirectionalRpc.cpp:233-240 | The same, and the request will yield no reply |
| Rpc.BiDirectionalRpc.RequestWithId | peer/src/base/BiDirectionalRpc.cpp:242-254 | Looking at any one outgoing request decides right whether all have the current barrier |
| Rpc.BiDirectionalRpc.Reply | peer/src/base/BiDirectionalRpc.cpp:256-266 | Moves the request from incoming to processed, stores and sends the reply, keeps the node valid |
| Rpc.BiDirectionalRpc.HandleRequest | peer/src/base/BiDirectionalRpc.cpp:146-179 | A new request is held, a control request is answered at once, a known one changes nothing |
| Rpc.BiDirectionalRpc.TryToSendBarrier | peer/src/base/BiDirectionalRpc.cpp:268-291 | Exactly the delayed requests of the lowest barrier become outgoing, are timed and sent, by a loop that erases while it iterates |
| Rpc.BiDirectionalRpc.FindLowestBarrier | peer/src/base/BiDirectionalRpc.cpp:275-278 | The loop finds a barrier that some delayed request has and none is below |
| Rpc.BiDirectionalRpc.HandleReply | peer/src/base/BiDirectionalRpc.cpp:181-222 | The first reply to an outgoing request finishes it; every reply is acknowledged; the clock takes the sample made of the stored send time, the two stamps of the reply and the present time from a first reply, and nothing from any other |
| Rpc.BiDirectionalRpc.HandleAcknowledge | peer/src/base/BiDirectionalRpc.cpp:120-136 | Drops the stored reply and its receive time, if there is one |
| Rpc.BiDirectionalRpc.Receive | peer/src/base/BiDirectionalRpc.cpp:86-144 | A packet has the effect of its messages in order, on both roles and on the clock; a valid node stays valid and no lookup in the clock maps can fail |
| Rpc.BiDirectionalRpc.GetFirstIncomingReply | peer/src/base/BiDirectionalRpc.hpp:72-82 | Hands over some incoming reply and remembers it as processed |
| Rpc.BiDirectionalRpc.ConsumeIncomingReplyWithId | peer/src/base/BiDirectionalRpc.hpp:94-104 | Hands over the payload of that reply and remembers it as processed |
| Rpc.BiDirectionalRpc.SendRequest | peer/src/base/BiDirectionalRpc.cpp:293-328 | Appends one packet with the request and, in a batch, any set of other outgoing ones with their own payloads |
| Rpc.BiDirectionalRpc.SendReply | peer/src/base/BiDirectionalRpc.cpp:330-372 | Appends one packet with the reply and, in a batch, any set of other stored ones, each with its receive time and a clock reading of its own |
| Rpc.BiDirectionalRpc.ResendRandomOutgoingMessage | peer/src/base/BiDirectionalRpc.cpp:72-84 | The packet it adds holds a stored reply if there is one, else an outgoing request, and no other message; nothing else changes |
| Rpc.BiDirectionalRpc.Heartbeat | peer/src/base/BiDirectionalRpc.cpp:56-70 | With something outgoing, adds that same packet; else a one-way PING exactly when the node may send and is not shutting down |
| Rpc.BiDirectionalRpc.HasWork | peer/src/base/BiDirectionalRpc.hpp:110-141 | Whether some delayed, outgoing or incoming request or incoming reply has a payload that is not empty |
| Clock.OffsetError | peer/src/base/ClockSynchronizer.cpp:22-32 | For true offset and delays d1 and d2 the estimate misses the negated offset by at most half of |d2 - d1| plus rounding, so by at most half the ping plus rounding; the ping term cancels |
| Clock.OffsetRoundsToZero | peer/src/base/ClockSynchronizer.cpp:22-32 | The estimate is half of d2 - d1 less the offset, rounded towards zero |
| Clock.TenthReplyError | peer/src/base/ClockSynchronizer.cpp:44-67 | At the tenth host reply the baseline becomes a mean, which misses the negated offset by at most the mean of the single bounds and 1.4 microseconds |
| Clock.InstalledShiftError | peer/src/base/ClockSynchronizer.cpp:44-67 | Over any run of ten or more replies with the host, the shift the object installs misses the negated offset by no more than that, after exactly ten, and afterwards apart from the optimizer's reading |
| Clock.EarlyShiftExactly | peer/src/base/ClockSynchronizer.cpp:47-67 | With equal delays both ways, the shift installed after k replies, 0 < k < 10, is exactly k times the negated offset: right if and only if k = 1 or there is no offset |
| Clock.SecondReplyDoubles | peer/src/base/ClockSynchronizer.cpp:47-67 | An input that shows it: a host one second ahead, 5 ms away; after two replies the shift is two seconds |
| Clock.EarlyShiftMisses | peer/src/base/ClockSynchronizer.cpp:47-67 | With any delays, that shift misses by at least k - 1 offsets less the sum of the single bounds |
| Clock.EarlyBaselineIsASum | peer/src/base/ClockSynchronizer.cpp:47-49 | With any delays, after k < 10 replies the baseline is within the sum of the single bounds of k times the negated offset |
| Clock.InstalledShift | peer/src/base/ClockSynchronizer.cpp:60-67 | After any replies the shift is baseline plus optimizer reading, which is zero up to the tenth |
| Clock.BaselineIsFinal | peer/src/base/ClockSynchronizer.cpp:54-59 | Later replies leave the baseline alone |
| Clock.HostRepliesAreHandled | peer/src/base/ClockSynchronizer.cpp:22-67 | Replies of the host, one after the other, leave what those bounds are about |
| Clock.OtherRepliesLeaveShift | peer/src/base/ClockSynchronizer.cpp:44-67 | Replies of any other peer change neither baseline nor shift, only the count |
| Clock.ClockSynchronizer.Stamp | peer/src/base/TimeHandler.hpp:24-32 | Whatever time shift is installed cancels out of a time stamp |
| Clock.ClockSynchronizer.CreateRequest | peer/src/base/ClockSynchronizer.hpp:22-30 | Records the send time of a request not recorded yet |
| Clock.ClockSynchronizer.ReceiveRequest | peer/src/base/ClockSynchronizer.hpp:32-40 | Records the receive time of a request not recorded yet |
| Clock.ClockSynchronizer.GetReplyDuration | peer/src/base/ClockSynchronizer.hpp:42-47 | The recorded receive time and the present time |
| Clock.ClockSynchronizer.EraseRequestReceiveTime | peer/src/base/ClockSynchronizer.hpp:49-56 | Forgets exactly that receive time |
| Clock.ClockSynchronizer.HandleReply | peer/src/base/ClockSynchronizer.cpp:6-15 | Forgets exactly that send time; count, baseline, optimizer reading and installed shift take one step of the run the bounds are about |
| Clock.ClockSynchronizer.UpdateDrift | peer/src/base/ClockSynchronizer.cpp:22-86 | Count, baseline, optimizer reading and shift after a sample |
| ChronoConvergence.Convergence | peer/src/base/ChronoMap.hpp:134-166 | For blocks of one partition of time, any delivery in any order with any repetition is fatal exactly if it has the first two blocks and the first is empty; otherwise it ends in the data of the longest contiguous prefix, expires at its end, and keeps the rest waiting |
| ChronoConvergence.OrderDoesNotMatter | peer/src/base/ChronoMap.hpp:23-41 | Two deliveries of the same set of blocks end in the same state |
| ChronoConvergence.ReplayRefinesPlainGet | peer/src/base/ChronoMap.hpp:43-106 | Although unchanged values are not stored, every lookup is the one of a plain scan of the blocks |
| ChronoConvergence.DeliveredAnswers | peer/src/base/ChronoMap.hpp:43-73 | After any delivery, get below the expiration time is the value of the last block of the partition that starts by then and sets the key; from then on there is none |
| ChronoConvergence.Drain | peer/src/base/ChronoMap.hpp:153-166 | Appending a block drains every waiting block that follows without a gap |
| ChronoState.PutOk | peer/src/base/ChronoMap.hpp:23-41 | put keeps: times below the expiration, adjacent stored values differ, waiting blocks proper; the expiration never falls |
| ChronoState.PutDies | peer/src/base/ChronoMap.hpp:23-166 | When a put into any proper map is fatal: exactly for a negative start, an empty or reversed block that is not in the past, and a block at the expiration time of a map without data that does not start at 0 or leaves nothing for the block waiting at its end |
| ChronoState.FirstBlockIsKept | peer/src/base/ChronoMap.hpp:23-41 | A later block with the start of an earlier one changes nothing, whether the first is stored or waits |
| ChronoState.AnswersAreFinal | peer/src/base/ChronoMap.hpp:23-73 | An answer below the expiration time never changes under a later put |
| ChronoMaps.ChronoMap.constructor | peer/src/base/ChronoMap.hpp:10 | A new map is empty and expires at 0 |
| ChronoMaps.ChronoMap.Put | peer/src/base/ChronoMap.hpp:23-41 | The new state or the fatal exits; a valid map stays valid |
| ChronoMaps.ChronoMap.AddNextTimeBlock | peer/src/base/ChronoMap.hpp:134-166 | The same for the recursive append |
| ChronoMaps.ChronoMap.MergeChanges | peer/src/base/ChronoMap.hpp:143-151 | The loop over the new data stores exactly the values that differ from the last one |
| ChronoMaps.ChronoMap.Get | peer/src/base/ChronoMap.hpp:43-73 | upper_bound and one step back give the value at the greatest stored time not after the given one |
| ChronoMaps.ChronoMap.GetAll | peer/src/base/ChronoMap.hpp:75-91 | The keys with a value at that time, with it |
| ChronoMaps.ChronoMap.GetChanges | peer/src/base/ChronoMap.hpp:93-107 | Exactly the entries whose latest stored value is another one or missing |
| PeerState.PlayOk | peer/src/peer/MyPeer.cpp:600-634 | An owner survives a list of updates exactly if its times rise from 0 and, with more than one update, the first is not empty; then its blocks form a partition and each message carries the last three |
| PeerState.DiesExactly | peer/src/base/ChronoMap.hpp:136-141 | When one more update is fatal |
| Lockstep.CatchesUp | peer/src/peer/MyPeer.cpp:491-508 | For any updates the owner survives, none and empty ones included: a replica ends with the owner's whole map, and in particular its expiration time, exactly if of every three consecutive messages one arrived and the last one did; any order and repetition |
| Lockstep.ReplicaAnswers | peer/src/peer/MyPeer.cpp:491-508 | Whatever arrived, below its expiration time a replica answers as the owner's full states do, and from then on gives nothing |
| Lockstep.DeltasKeepMeaning | peer/src/peer/MyPeer.cpp:606-609 | Reading the deltas is reading the full states |
| Lockstep.NextDeltaExactly | peer/src/peer/MyPeer.cpp:606-609 | The next block sets a key exactly if its value is not the one a plain scan of the earlier updates gives |
| Lockstep.DeltasAreMinimal | peer/src/peer/MyPeer.cpp:600-634 | So every block an owner ever makes has exactly the changes |
| Lockstep.ReceiveIsDeliver | peer/src/peer/MyPeer.cpp:495-506 | Receiving messages is delivering the blocks they carry |
| Lockstep.OwnerReplicates | peer/src/peer/MyPeer.cpp:600-634 | After any number of its updates an owner's own map is a delivery of the blocks it makes in all |
| Lockstep.ReplicaReplicates | peer/src/peer/MyPeer.cpp:491-508 | So is a replica, whatever messages it received, and it never dies |
| Lockstep.ReadsWhatWasTyped | peer/src/peer/MyPeer.cpp:485-634 | From the updates of each player and the messages each peer received to the answer: a ready peer reads of each living player the last update in force that has the key, and of no other player anything |
| Lockstep.PeersReadAlike | peer/src/peer/MyPeer.cpp:485-634 | Any two peers of a game, at any point of their own updates and whatever each received, read the same inputs at a time both are ready for, if and only if no player that only one of them sees as down had an input in force |
| Lockstep.InputsAgreeExactly | peer/src/peer/MyPeer.cpp:556-593 | The same for any two peers that hold deliveries of the game's blocks |
| Lockstep.LockstepInputs | peer/src/peer/MyPeer.cpp:556-593 | Two such peers that see the same players alive read the same inputs at every time both are ready for |
| Lockstep.FullStatesAgreeExactly | peer/src/peer/MyPeer.cpp:636-668 | Two peers build the same full state if and only if, for every key, the first player in order whose data reaches the time and has the key gives the same value on both |
| Lockstep.FullStatesNeedEveryHolder | peer/src/peer/MyPeer.cpp:643-662 | It suffices that no player whose data reaches the time on one peer only has a key; where players keep to keys of their own it is also necessary |
| Lockstep.LostPlayerSplitsPeers | peer/src/peer/MyPeer.cpp:643-662 | An input that shows the failure: the last block of a player now down reached one of two peers; they agree on who lives and on all inputs, and differ in the full state |
| Lockstep.LockstepFullState | peer/src/peer/MyPeer.cpp:636-668 | Two ready peers build the same full state, key collisions included, on the condition that the data of each player that is down reaches the time on both or on neither |
| Lockstep.FullStateIsTyped | peer/src/peer/MyPeer.cpp:485-668 | From updates and messages to the full state, for every key: it has the value typed by the first player in order that is available and typed it, and no value if no available player did |
| Lockstep.PeersBuildAlike | peer/src/peer/MyPeer.cpp:485-668 | Any two peers of a game, at any point of their own updates and whatever each received, build the same full state if and only if for every key the first available player that typed it typed the same; where players type keys of their own, if and only if whoever is available to one of them only has nothing in force |
| MyPeers.PeersBuildTheSameState | peer/src/peer/MyPeer.cpp:638-668 | With each peer iterating its own player map, the sorted order of ids makes the choice agree: the full states are equal if and only if the first values agree for every key; with keys apart, if and only if no holder is available to one peer only; and for ready peers if both have the players that are down alike |
| MyPeers.MapOrderIsUnique | peer/src/peer/MyPeer.cpp:638 | A set of ids has one sorted order |
| MyPeers.PrecedesIsSmaller | peer/src/peer/MyPeer.hpp:85 | That order: one id comes before another exactly if at their first difference it ends or has the smaller character |
| MyPeers.LeastOfferWins | peer/src/peer/MyPeer.cpp:638-653 | For any map of players, the value of a key in the full state is the one of the available player that has it and whose id is least by first difference, and there is none if no available player has it |
| MyPeers.MyPeer.UpdateState | peer/src/peer/MyPeer.cpp:600-634 | Puts the delta, slides the window, pads and broadcasts it; fatal exactly when the put is |
| MyPeers.MyPeer.ReceiveInputs | peer/src/peer/MyPeer.cpp:494-506 | The receive loop puts the three blocks in order |
| MyPeers.MyPeer.GetAllInputValues | peer/src/peer/MyPeer.cpp:556-593 | For each key the value of every living player that has one |
| MyPeers.MyPeer.GetFullState | peer/src/peer/MyPeer.cpp:636-668 | Players in sorted order; each key has the value of the least id, by first difference, among the available players that have it |
| MyPeers.WindowMessage | peer/src/peer/MyPeer.cpp:617-630 | The buffer, its last block repeated up to the window size |
| MyPeers.Push | peer/src/peer/MyPeer.cpp:608-612 | push_back, then pop_front down to the window size |
| HttpBody.ChunkedBodyIsRecovered | peer/external/miniupnpc-2.1.20190408/miniwget.c:114-361 | For every header that says chunked and gives no positive Content-Length, every chunking into non-empty chunks below 2^32 bytes and every cut of the stream into segments, the response is the content and the status code; section 7.1 of RFC 9112 |
| HttpBody.ExtensionsArePassedOver | peer/external/miniupnpc-2.1.20190408/miniwget.c:114-361 | The same for chunks with any extensions and every cut in which no segment starts inside an extension, past its first character, with a hexadecimal digit |
| HttpSpoilt.ExtensionCutsExactly | peer/external/miniupnpc-2.1.20190408/miniwget.c:114-361 | The same for every cut: without a bad one the response is the content; with one, if the digits read there fit 32 bits and the next chunk does not start with a CR, it is the content if and only if those digits stand for the size of their chunk |
| HttpSpoilt.BadCutExactly | peer/external/miniupnpc-2.1.20190408/miniwget.c:236-311 | For a given first bad cut, whatever comes after it; the digits stand for the right size only at the last chunk, when they are zeros |
| HttpSpoilt.SpoiltContent | peer/external/miniupnpc-2.1.20190408/miniwget.c:236-311 | A bad cut always adds digits; a size read too large adds the CR behind the chunk to the content, a zero read for the last chunk changes nothing |
| HttpSpoilt.DataIsTaken | peer/external/miniupnpc-2.1.20190408/miniwget.c:287-310 | Whatever follows, as many bytes as the size says are taken for data, over any pieces |
| HttpBody.LengthOverridesCoding | peer/external/miniupnpc-2.1.20190408/miniwget.c:236-351 | Chunked with a Content-Length of N > 0, which section 6.3 of RFC 9112 has the coding override: the response is a beginning of the content, of at least N bytes if not all, and is the content if and only if no segment ends with N bytes in and content still to come |
| HttpBody.ChunkedBodyIsRead | peer/external/miniupnpc-2.1.20190408/miniwget.c:114-361 | What a chunked response leaves in general: the content that is in at the end of the first segment that reaches the Content-Length, or all of it |
| HttpBody.PlainBodyIsRecovered | peer/external/miniupnpc-2.1.20190408/miniwget.c:313-351 | For every other header, body and cut, the response is the body, or its first N bytes under a Content-Length of N > 0; section 6.3 of RFC 9112 |
| HttpBody.PlainBodyIsRead | peer/external/miniupnpc-2.1.20190408/miniwget.c:313-351 | The same for headers with any fields, those with an empty Content-Length included, under the length the reader takes then |
| HttpFields.CutHeaderIsError | peer/external/miniupnpc-2.1.20190408/miniwget.c:114-160 | A stream that breaks off inside the header gives no content and no status |
| HttpFindings.EmptyLengthIsReadFromBody | peer/external/miniupnpc-2.1.20190408/miniwget.c:205-211 | If the last field is taken for Content-Length and has no value, its number is the one that what came of the body with the header starts with |
| HttpFindings.EmptyLengthCutsBody | peer/external/miniupnpc-2.1.20190408/miniwget.c:205-211 | An input that shows it: behind an empty Content-Length a body of a 3 and letters is cut to three bytes |
| HttpFindings.ForeignFieldTruncates | peer/external/miniupnpc-2.1.20190408/miniwget.c:205-211 | A field with any beginning of Content-Length as its name cuts every body to its number, however the response arrives |
| HttpFindings.OneLetterTruncates | peer/external/miniupnpc-2.1.20190408/miniwget.c:205-211 | The field C: 3 leaves three bytes of a longer body |
| HttpFindings.CutExtensionMisread | peer/external/miniupnpc-2.1.20190408/miniwget.c:249-275 | An input that shows it: the size line 5;a cut before the a is read as a size of ninety, and the CR LF and the last chunk behind the data become content |
| HttpFindings.CutExtensionWasValid | peer/external/miniupnpc-2.1.20190408/minihttptestserver.c:130-149 | Those two segments are a valid encoding of five bytes |
| HttpFindings.LengthLosesChunks | peer/external/miniupnpc-2.1.20190408/miniwget.c:344-350 | A chunked response whose first segment ends with the first chunk, at least as long as the Content-Length: the other chunks are lost |
| HttpResponse.GetHTTPResponse | peer/external/miniupnpc-2.1.20190408/miniwget.c:68-361 | The loop over segments, with all its buffers, returns that response; what is left after the header fits the buffer it is copied to |
| HttpResponse.ChunkedRoundTrip | peer/external/miniupnpc-2.1.20190408/minihttptestserver.c:103-156 | The test server's chunked response, sent in any pieces, is read back with status 200 |
| HttpServer.BuildChunkedResponse | peer/external/miniupnpc-2.1.20190408/minihttptestserver.c:103-156 | Whatever rand() returns, the result is the header and the encoding of some chunking of the content |
| HttpServer.SendResponse | peer/external/miniupnpc-2.1.20190408/minihttptestserver.c:281-301 | Whatever rand() returns, the pieces put together are the buffer |
| HttpServer.ServerHeaderIsOk | peer/external/miniupnpc-2.1.20190408/minihttptestserver.c:116-120 | What the test server's header says: status 200, chunked, no length |
| HttpServer.WrittenThenEncoded | peer/external/miniupnpc-2.1.20190408/minihttptestserver.c:130-149 | Writing chunk after chunk is the encoding of all of them |
| HttpResponse.ReadHeader | peer/external/miniupnpc-2.1.20190408/miniwget.c:161-226 | The parse loop of the header |
| HttpResponse.FindHeaderEnd | peer/external/miniupnpc-2.1.20190408/miniwget.c:136-158 | The scan loop of the header |
| HttpResponse.ReadSizeLine | peer/external/miniupnpc-2.1.20190408/miniwget.c:243-275 | The loops that read a size line |
| HttpResponse.ReadChunkBuffer | peer/external/miniupnpc-2.1.20190408/miniwget.c:237-311 | The chunk loop over one buffer |
| HttpResponse.ReadPlainBuffer | peer/external/miniupnpc-2.1.20190408/miniwget.c:313-341 | How much of a buffer belongs to a body that is not chunked |
| HttpHeader.LeftoverIsFromLastSegment | peer/external/miniupnpc-2.1.20190408/miniwget.c:228-230 | For any bytes, what is left after the header came with the last segment |
| HttpHeader.HeaderIsFound | peer/external/miniupnpc-2.1.20190408/miniwget.c:136-160 | However a header is cut, its end is found when all of it is there, and not before |
| HttpHeader.HeaderIsParsed | peer/external/miniupnpc-2.1.20190408/miniwget.c:161-226 | The loop reads the status code and, field by field, Content-Length and Transfer-Encoding, whatever body follows; any field but the first of these may be empty |
| HttpHeader.HeaderIsParsedBefore | peer/external/miniupnpc-2.1.20190408/miniwget.c:161-226 | The same with no exception: an empty Content-Length is read on into what follows its line, the other fields and what the buffer has of the body |
| HttpHeader.FieldsThenReadsOn | peer/external/miniupnpc-2.1.20190408/miniwget.c:205-211 | As the last field it takes its number from the body |
| HttpHeader.NextNameIsTaken | peer/external/miniupnpc-2.1.20190408/miniwget.c:205-211 | In front of a field whose name starts like no number it counts as a length of 0, and an earlier length is forgotten |
| HttpHeader.NameIsAccepted | peer/external/miniupnpc-2.1.20190408/miniwget.c:205-212 | A header name is accepted exactly if it is, in either case, a beginning of the name looked for |
| HttpHeader.StatusIsRead | peer/external/miniupnpc-2.1.20190408/miniwget.c:174-190 | The number after the first space of the status line |
| HttpHeader.AtoiStopsAt | peer/external/miniupnpc-2.1.20190408/miniwget.c:207 | A number is read the same with or without what follows it |
| HttpFields.AtoiReads | peer/external/miniupnpc-2.1.20190408/miniwget.c:181-207 | White space, a sign and digits are read as the signed decimal number they stand for, whatever follows, and as 0 without digits |
| HttpFields.FieldIsUnderstood | peer/external/miniupnpc-2.1.20190408/miniwget.c:205-217 | A field changes the length if its name is a beginning of Content-Length, else marks the body as chunked exactly if its name is a beginning of Transfer-Encoding and its value begins with chunked, in either case; nothing else |
| HttpFields.StatusIsFirstCode | peer/external/miniupnpc-2.1.20190408/miniwget.c:174-190 | The status is the number after the first space that is followed by one of at least zero |
| HttpFields.BareLinesEnd | peer/external/miniupnpc-2.1.20190408/miniwget.c:136-158 | A header without CR ends at its first two line feeds in a row |
| HttpPlaces.BufferKeepsPlace | peer/external/miniupnpc-2.1.20190408/miniwget.c:237-311 | A buffer that ends anywhere leaves the reader at a definite place of the encoding; it ends only with the whole content |
| HttpPlaces.TurnKeepsPlace | peer/external/miniupnpc-2.1.20190408/miniwget.c:237-311 | The same for one turn of the loop |
| HttpPlaces.SizeLineIsRead | peer/external/miniupnpc-2.1.20190408/miniwget.c:243-275 | A size line is completed exactly if the buffer shows the rest of it, otherwise read as far as it goes |
| HttpChunks.SizeOfHex | peer/external/miniupnpc-2.1.20190408/miniwget.c:261-268 | The shifting arithmetic undoes %x for every 32-bit size |
| HttpExtensions.LineInPieces | peer/external/miniupnpc-2.1.20190408/miniwget.c:249-275 | A size line with an extension, cut into any pieces, always completes, and with the right digits if and only if no piece starts inside the extension, past its first character, with a hexadecimal digit |
| SoapBody.BodyIsReadBack | peer/external/miniupnpc-2.1.20190408/upnpreplyparse.c:16-119 | Parsing a printed body lists exactly its arguments, last one first, cut to their fields, with the last port listing apart; without arguments the action itself is listed, which is the one exception |
| SoapBody.ValueIsReadBack | peer/external/miniupnpc-2.1.20190408/upnpreplyparse.c:138-152 | With distinct names of up to 63 characters and values of up to 127, a lookup gives the value the argument was printed with |
| SoapBody.BodyIsReported | peer/external/miniupnpc-2.1.20190408/minixml.c:111-221 | Parsing a printed body reports its tags and values and nothing else |
| SoapBody.ArgsAreHandled | peer/external/miniupnpc-2.1.20190408/upnpreplyparse.c:16-101 | The callbacks turn the events of the arguments into their list |
| SoapBody.ListedValue | peer/external/miniupnpc-2.1.20190408/upnpreplyparse.c:138-152 | Among distinct names the first match is the argument's own |
| SoapBody.LongArgIsCut | peer/external/miniupnpc-2.1.20190408/upnpreplyparse.c:16-72 | An entry keeps the first 63 characters of a name and the first 127 of a value |
| SoapPrinter.PrintBody | peer/external/miniupnpc-2.1.20190408/miniupnpc.c:132-216 | The full, untruncated body exactly if it is shorter than the buffer, else NULL |
| SoapPrinter.PrintAndLookUp | peer/external/miniupnpc-2.1.20190408/miniupnpc.c:117-216 | Printing, parsing and looking up an argument gives its value, or nothing if the body did not fit |
| SoapPrinter.PrintArgs | peer/external/miniupnpc-2.1.20190408/miniupnpc.c:169-214 | The moving pointer prints the arguments, or stops only when the text reaches the end of the buffer |
| SoapPrinter.StrNCpy | peer/external/miniupnpc-2.1.20190408/miniupnpc.c:210-214 | strncpy pads to the end, so the last byte tells whether the text fitted |
| SoapPrinter.CopyString | peer/external/miniupnpc-2.1.20190408/miniupnpc.c:174-175 | The copy loop writes as much of a string as there is room for |
| XmlTags.OpenTagTurn | peer/external/miniupnpc-2.1.20190408/minixml.c:130-199 | A start tag with any prefix and attributes reports its bare name, and the text behind it if an end tag follows |
| XmlTags.CloseTagTurn | peer/external/miniupnpc-2.1.20190408/minixml.c:200-214 | An end tag reports its full name |
| XmlTags.AttributesEndAt | peer/external/miniupnpc-2.1.20190408/minixml.c:40-107 | Quoted attributes are passed over up to the '>' or '/' |
| XmlTags.NothingReported | peer/external/miniupnpc-2.1.20190408/minixml.c:216-219 | Characters that start no tag are passed over |
| XmlForms.AttributeIsPassed | peer/external/miniupnpc-2.1.20190408/minixml.c:49-107 | An attribute with any white space around its value, either kind of quotes or none, is passed over together with the character that ends it; without quotes that can be the end of the tag |
| XmlForms.EmptyTagReported | peer/external/miniupnpc-2.1.20190408/minixml.c:130-199 | An empty tag, with any prefix and attributes, reports its start and no end |
| XmlForms.CommentIsPassed | peer/external/miniupnpc-2.1.20190408/minixml.c:116-129 | A comment is passed over, tags in it included |
| XmlForms.CDataIsReported | peer/external/miniupnpc-2.1.20190408/minixml.c:152-183 | The text of a CDATA section behind a start tag is reported as it stands |
| MiniXml.XmlParser.ParseXml | peer/external/miniupnpc-2.1.20190408/minixml.c:224-229 | The cursor loop makes the callbacks of the events of the buffer, in order |
| MiniXml.XmlParser.ParseAtt | peer/external/miniupnpc-2.1.20190408/minixml.c:40-107 | The attribute loop ends at the same character, or reports the end of the buffer |
| MiniXml.XmlParser.ParseContent | peer/external/miniupnpc-2.1.20190408/minixml.c:152-198 | White space, CDATA or text after a start tag |
| MiniXml.ParseNameValue | peer/external/miniupnpc-2.1.20190408/upnpreplyparse.c:104-119 | A fresh list filled by parsing the buffer |
| NameValueList.NameValueParserData.StartElt | peer/external/miniupnpc-2.1.20190408/upnpreplyparse.c:16-27 | The start callback |
| NameValueList.NameValueParserData.GetData | peer/external/miniupnpc-2.1.20190408/upnpreplyparse.c:74-101 | The data callback |
| NameValueList.NameValueParserData.EndElt | peer/external/miniupnpc-2.1.20190408/upnpreplyparse.c:29-72 | The end callback: a leaf is pushed once, a closing parent is not |
| NameValueList.NameValueParserData.GetValueFromNameValueList | peer/external/miniupnpc-2.1.20190408/upnpreplyparse.c:138-152 | The value of the first entry of that name |
| NameValueList.ValueOfDistinct | peer/external/miniupnpc-2.1.20190408/upnpreplyparse.c:138-152 | In a list of distinct names every entry is found |
| NameValueList.CStringIsWhole | peer/external/miniupnpc-2.1.20190408/upnpreplyparse.c:22-24 | A text without NUL is its own C string |
| MiniSsdp.LengthRoundTrip | peer/external/miniupnpc-2.1.20190408/codelength.h:24-32 | DECODELENGTH undoes CODELENGTH exactly for the 32-bit lengths: for them the early stop at 2^25 changes nothing |
| MiniSsdp.CodeLength | peer/external/miniupnpc-2.1.20190408/codelength.h:48-52 | The tests against powers of two write the shortest seven-bit code |
| MiniSsdp.LengthCut | peer/external/miniupnpc-2.1.20190408/codelength.h:24-32 | A length cut short is not decoded |
| MiniSsdp.ReplyRoundTrip | peer/external/miniupnpc-2.1.20190408/minissdpc.c:259-353 | The daemon's reply decodes to its devices in reverse; cut anywhere, to the devices it holds completely and an error |
| MiniSsdp.ReceiveDevices | peer/external/miniupnpc-2.1.20190408/minissdpc.c:259-353 | However read() cuts the stream, the result is that of the stream in one piece; an empty stream is a socket error |
| MiniSsdp.ReceiveEncoded | peer/external/miniupnpc-2.1.20190408/minissdpc.c:259-353 | Both together, for the complete reply |
| MiniSsdp.Reader.Refill | peer/external/miniupnpc-2.1.20190408/minissdpc.c:125-131 | A refill keeps the unread bytes and fails exactly at their end |
| MiniSsdp.Reader.ReadByte | peer/external/miniupnpc-2.1.20190408/minissdpc.c:125-131 | The next unread byte, or the end |
| MiniSsdp.Reader.ReadCopy | peer/external/miniupnpc-2.1.20190408/minissdpc.c:137-150 | The next unread bytes across refills, or the end if there are too few |
| MiniSsdp.Reader.ReadLength | peer/external/miniupnpc-2.1.20190408/codelength.h:24-32 | The length the unread bytes start with, or the end |
| MiniSsdp.Reader.ReadDevice | peer/external/miniupnpc-2.1.20190408/minissdpc.c:279-348 | The device the unread bytes start with, or the end |
| Endpoints.StartIsPartition | peer/src/base/MultiEndpointHandler.cpp:4-19 | The partition holds at the start exactly if the first endpoint is not listed again |
| Endpoints.StepKeeps | peer/src/base/MultiEndpointHandler.cpp:21-160 | Every step keeps active, alternative and dead endpoints disjoint; only adding and an effective ban change their union |
| Endpoints.RunKeepsPartition | peer/src/base/MultiEndpointHandler.cpp:21-160 | The partition holds after every run |
| Endpoints.RunConserves | peer/src/base/MultiEndpointHandler.cpp:21-140 | Send, reply, kill and resurrect conserve the endpoints over a run |
| Endpoints.SafeBanNeverLost | peer/src/base/MultiEndpointHandler.cpp:118-160 | No draw can leave a banned endpoint in place if and only if, before the call, it is not the active one or an alternative is left |
| Endpoints.SafeBansStayGone | peer/src/base/MultiEndpointHandler.cpp:118-160 | In a run in which every ban of the active endpoint finds an alternative left, a banned endpoint is never active, alternative or dead again |
| Endpoints.UnsafeBanCanFail | peer/src/base/MultiEndpointHandler.cpp:118-160 | Otherwise the same calls, with other draws, leave one in place |
| Endpoints.BannedStayGoneForAllDraws | peer/src/base/MultiEndpointHandler.cpp:118-160 | Both over all draws of a list of calls: banned endpoints stay gone whatever is drawn if and only if each ban of the active endpoint finds an alternative whatever is drawn |
| Endpoints.BannedStayGone | peer/src/base/MultiEndpointHandler.cpp:118-160 | For the draws of one run: a banned endpoint stays gone exactly if no ban hits the active endpoint, finds no alternative and draws that endpoint again |
| Endpoints.BanKeeps | peer/src/base/MultiEndpointHandler.cpp:118-160 | What one ban does to the endpoints |
| Endpoints.BanMoves | peer/src/base/MultiEndpointHandler.cpp:118-160 | Which set loses what: a banned endpoint is nowhere left, and if it was active what was drawn takes over |
| Endpoints.AddedIsAlternative | peer/src/base/MultiEndpointHandler.hpp:24-38 | A new endpoint is an alternative from then on, so that any ban is safe |
| Endpoints.FindingBack | peer/src/base/MultiEndpointHandler.cpp:63-93 | Finding an endpoint and then the one it replaced undoes the first, except that what was dead is an alternative now |
| Endpoints.LastEndpointStays | peer/src/base/MultiEndpointHandler.cpp:126-133 | The ban of the only endpoint leaves it active |
| Endpoints.PatienceOverRuns | peer/src/base/MultiEndpointHandler.cpp:102-116 | After a reply, a new wait or a kill, no send gives up on an endpoint before more than five seconds have passed |
| Endpoints.WaitRestarts | peer/src/base/MultiEndpointHandler.cpp:21-61 | What restarts that wait |
| Endpoints.SendGivesUpExactly | peer/src/base/MultiEndpointHandler.cpp:31-61 | From the start of a handler, in terms of the calls: once every send has its reply, a send at a time T waits; without a reply, a ban of the active endpoint or a send later than T + 5, the next send gives the endpoint up if and only if it is later than T + 5: an alternative is drawn and the old endpoint dead, or without alternatives a dead one or itself is drawn, and the wait begins anew |
| Endpoints.SendDecides | peer/src/base/MultiEndpointHandler.cpp:31-61 | The same for the one send that decides |
| Endpoints.BanBeginsAnew | peer/src/base/MultiEndpointHandler.cpp:118-140 | A ban of the active endpoint begins the wait anew |
| Endpoints.EveryAlternativeIsTried | peer/src/base/MultiEndpointHandler.cpp:102-140 | Without a reply every alternative has its turn: as many give-ups as there are alternatives leave none untried |
| Endpoints.NoUpdateIsMissed | peer/src/base/MultiEndpointHandler.cpp:38-42 | Updating once a second at most misses nothing: at each send of a run the wait alone decides |
| Endpoints.SilentAfterSixSeconds | peer/src/base/MultiEndpointHandler.cpp:31-61 | An input: a send at 100 and no reply; a send at 106 makes the alternative active, one at 105 does not |
| Endpoints.MultiEndpointHandler.constructor | peer/src/base/MultiEndpointHandler.cpp:4-19 | The first endpoint is active, the others are alternatives |
| Endpoints.MultiEndpointHandler.AddEndpoint | peer/src/base/MultiEndpointHandler.hpp:24-38 | Adds an endpoint that is neither banned nor known |
| Endpoints.MultiEndpointHandler.HasEndpoint | peer/src/base/MultiEndpointHandler.hpp:51-65 | Whether an endpoint is banned or known |
| Endpoints.MultiEndpointHandler.HasEndpointAndResurrectIfFound | peer/src/base/MultiEndpointHandler.cpp:63-93 | Whether it is known and not banned; if so it is active afterwards |
| Endpoints.MultiEndpointHandler.KillEndpoint | peer/src/base/MultiEndpointHandler.cpp:118-140 | Some candidate becomes active: an alternative if there is one, else any dead endpoint, the killed one among them |
| Endpoints.MultiEndpointHandler.BanEndpoint | peer/src/base/MultiEndpointHandler.cpp:142-160 | The sets after a ban, for some draw |
| Endpoints.MultiEndpointHandler.Update | peer/src/base/MultiEndpointHandler.cpp:102-116 | A kill exactly after more than five seconds of waiting |
| Endpoints.MultiEndpointHandler.Send | peer/src/base/MultiEndpointHandler.cpp:31-61 | The times and, at most once a second, the kill, after which some candidate is active |
| Endpoints.MultiEndpointHandler.HandleReply | peer/src/base/MultiEndpointHandler.cpp:21-29 | Ends the wait |
| NatPmp.RetrySchedule | peer/external/libnatpmp-20150609/natpmp.c:271-308 | In every run the retry time after the k-th send is the start plus 250 (2^k - 1) ms with normalised microseconds, at most nine sends are made, and none before its time; section 3.1 of RFC 6886 |
| NatPmp.GivesUp | peer/external/libnatpmp-20150609/natpmp.c:283-287 | The timer reports a missing gateway exactly after nine sends and no earlier than 127.75 seconds after the first |
| NatPmp.ResendsExactly | peer/external/libnatpmp-20150609/natpmp.c:271-308 | A poll sends again if and only if the request is pending, nothing is read, the scheduled time has come and fewer than nine sends were made; then one more send is counted and the next time scheduled |
| NatPmp.ResponseEnds | peer/external/libnatpmp-20150609/natpmp.c:278-307 | A response ends the request, any other error leaves it as it is |
| NatPmp.EndedStaysEnded | peer/external/libnatpmp-20150609/natpmp.c:276-277 | From then on every poll of a run reports that nothing is pending and nothing is sent |
| NatPmp.SilentRunTries | peer/external/libnatpmp-20150609/natpmp.c:271-308 | Over runs in which nothing is read: k sends are made if and only if each of the first k - 1 scheduled times is followed, in turn, by a poll |
| NatPmp.SilentGatewayIsReported | peer/external/libnatpmp-20150609/natpmp.c:271-308 | If each scheduled time is followed by a poll, all nine sends are made, and a poll at or after 127.75 seconds reports the missing gateway |
| NatPmp.RetryAt300 | peer/external/libnatpmp-20150609/natpmp.c:289-301 | An input: a request sent at 0 and a poll at 300 ms; it is sent again, and the next retry is at 750 ms |
| NatPmp.RetriedOnSchedule | peer/external/libnatpmp-20150609/natpmp.c:289-298 | Splitting the delay into seconds and microseconds carries at most once and keeps the schedule |
| NatPmp.NatPmpClient.SendNatPmpRequest | peer/external/libnatpmp-20150609/natpmp.c:123-139 | The first retry time is 250 ms later and normalised |
| NatPmp.NatPmpClient.GetNatPmpRequestTimeout | peer/external/libnatpmp-20150609/natpmp.c:141-157 | The reported timeout is the retry time minus now, normalised, or the error |
| NatPmp.NatPmpClient.ReadNatPmpResponseOrRetry | peer/external/libnatpmp-20150609/natpmp.c:271-308 | The result, the timer and whether it sent again |
| Base64.DecodeEncode | peer/src/base/Base64.hpp:34-123 | Decode(Encode(x)) = x; section 4 of RFC 4648 |
| Base64.EncodeDecode | peer/src/base/Base64.hpp:72-123 | Encode(Decode(s)) = s exactly for canonical padded text |
| Base64.EncodingLength | peer/src/base/Base64.hpp:42-43 | Four characters for every three bytes begun |
| Base64.WrongSizeIsTold | peer/src/base/Base64.hpp:90-92 | A text of the wrong size decodes to a message that says so |
| Base64.SextetsStandFor | peer/src/base/Base64.hpp:48-67 | The encoder writes what the standard asks for: the same 24 bits in each group, zero bits under the padding |
| Base64.StandsForKept | peer/src/base/Base64.hpp:93-120 | The decoder reads it |
| Base64.StandsForSextets | peer/src/base/Base64.hpp:48-67 | No other text stands for the same bytes |
| Base64.Encode | peer/src/base/Base64.hpp:34-70 | The pointer loop and its tail write the encoding |
| Base64.Decode | peer/src/base/Base64.hpp:72-123 | The loop with its cut-off output gives the decoding, or the message for a wrong size |

## Left out

- Eviction: `processedRequests` and `processedReplies` are caches of 131072 entries in the source and sets here, so the exactly-once results hold for nodes that evict nothing.
- Locks, threads, timers and condition waits: each locked method is one atomic step with one clock reading, except that each reply of a batch has its own.
- MyPeers.MyPeer.GetAllInputValues: the waiting loop is a precondition saying that the time is available for every living player, and a player that is shut down while it is waited for is one that is down.
- MyPeers.MyPeer.GetFullState: the same for its waiting loop.
- Clock.ClockSynchronizer.UpdateDrift: leaves out what feeds the estimators, and takes the two integers the code reads from them.
- Packets as bytes: a packet is a list of messages, the size limit of a batch is a free choice, and the subclass that encrypts is not modelled. `validatePacket` returns true, as in the base class.
- Ids: `requestWithId` is modelled for ids of the current barrier; the forwarding of foreign ids by `FanOutRpc` is not. That a new id is unused stands for the uuid generator.
- Linear searches through the hash maps for one key are membership tests; iteration over a hash map is any order.
- `initTimeShift` and the loops of `RpcServer`; `sendShutdown` is a one-way request.
- The floating-point estimators: half the mean ping is an integer given with each packet of replies, the same for all of them. The optimizer's reading is an integer too, zero until the tenth reply as in the source, and any value afterwards.
- 64-bit wrap-around of times, counters and barriers.
- `ChronoMap` is modelled for string keys and values, the instance `MyPeer` uses. Blocks that do not come from one partition of time are covered by the class and by `ChronoState.PutOk` only: a stale block at the front of the queue can block draining.
- HTTP: failing allocations, the capacity of the growing buffers, and a null status pointer. `atoi` is unbounded, where the source is undefined beyond an int; a number that is not followed by anything is not read past.
- HttpSpoilt.ExtensionCutsExactly: says nothing of a bad cut whose digits overflow 32 bits, or in front of a chunk whose data starts with a CR, where a response may come out right by chance.
- RpcBoth.JointDrainBound: a node's turn is as many packets as it takes to get its stored replies, or else its outgoing requests, through; what a node sends besides by itself, on issuing, replying and releasing, only adds to that and is not needed.
- HttpServer.BuildChunkedResponse: does not model the size of the response buffer, which the source itself marks as unchecked.
- HttpServer.SendResponse: every write() takes its piece whole; EINTR and errors are left out.
- The XML parser may look at the byte just past its buffer in four places that a printed body never reaches; the model sees a NUL there.
- SOAP: everything after the body is built, that is URL parsing, the connection and the posting.
- MiniSSDPd: failing allocations, and the request side of the protocol.
- Endpoints: `rand()` is a free choice, the time stamps of one step are one reading, and `send` stops before the socket. Duplicate endpoints among the alternatives collapse, as in the source.
- Endpoints.RunConserves: is about runs without adding and banning; `Endpoints.StepKeeps` says what those do.
- NAT-PMP: the contents of packets and the other result codes of reading.
- Base64.Encode: needs two bytes, because its loop bound is unsigned; `Base64.DecodeEncode` holds for the specification from one byte on.
- Base64.Decode: needs a non-empty input; characters above 127 are looked up as unsigned.
- Lobby server, port mapping, gateway discovery, STUN, language bindings and command-line tools.
