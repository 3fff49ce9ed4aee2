# HyperShare in Dafny

HyperShare is a peer-to-peer file sharing program. This project models the parts of it that carry state, protocol or
arithmetic, and proves what they guarantee over every input, run or reachable state.

* **Routing** (`RouterModel`, `HopWrap`, `RouterLearning`, `LearnedEntries`, `PeerRouter`, `RouterNetwork`,
  `LoopFreedom`, `RouteConvergence`, `RoundExists`, `RouteDelivery`). Every operation of the router is a function on its tables; the
  class `PeerRouter` performs it in place and is proved equal to the function. The network is a set of routers,
  symmetric links and all packets ever sent, so that packets may be late, repeated, reordered or lost. As long as no
  peer is removed and no entry expires, loop freedom and distances hold over every interleaving, and hop counts converge
  to the true distances one hop per round.
* **Removals and expiry** (`RouteSafety`, `UnsafeStates`, `RouterRemoval`, `RouterLoss`, `LossyRuns`,
  `RemovalHazards`). Every disconnect removes a peer (`src/network/connection_manager.cpp:469`). That can break all this
  at once, where another router relied on the remover, or later, where the remover goes on listing a destination that it
  can no longer reach, or a packet from before arrives after. `UnsafeStates.SafeExactly` says of any state of the network
  when all routes stay sound whatever follows, `RouterLoss` what that means for a removal or an expiry, and
  `LossyRuns.SafeExactlyWhenHarmless` for any number of them in any interleaving. `RemovalHazards` leads to each of the
  three failures from a fresh start.
* **File queries** (`QueryModel`, `QueryIdentity`, `QueryFlood`, `FloodCoverage`, `ByteConversion`). A flood ends, how
  many messages it costs, whom it reaches and who answers, with routers cleaning up at any time.
* **Replay protection** (`NonceWindow`, `NonceManager`). A pruned set of nonces answers as the full history would,
  with all 64-bit sums wrapping.
* **Flow control** (`CongestionWindow`, `RttEstimator`, `RequestRate`, `FlowController`) and **bandwidth**
  (`TokenBucket`, `PriorityDrain`, `BandwidthLimiter`). Bounds over whole runs, from above and from below.
* **Transfers** (`SessionModel`, `SessionBytes`, `TransferSession`, `ChunkStore`, `Reassembly`). Split, request,
  receive, store and merge give the file back.
* **Connections** (`Framing`, `WriteQueue`, `Connection`). A queue of writes at one end, a reader at the other.
* **Messages** (`Endian`, `Wire`, `Records`, `Messages`, `RouteUpdateCodec`, `ByteBuffer`, `RouteUpdateBuffer`,
  `FileResponseCodec`, `FileMetadataCodec`, `Transcripts`). One generic reader and writer of layouts, proved once,
  serves all codecs; `WireBytes` and `RecordBytes` say digit by digit what it writes. The router's buffer code is also written out as it runs, byte by byte and loop by loop, and proved
  equal.
* **Checksum** (`ByteRegister`, `Crc32`). The bitwise CRC-32, compare section 8 of RFC 1952.

Where the program reads a clock, draws random bytes or calls a hash, the value is a parameter. Clock readings are in
nanoseconds. Strings on the wire are byte strings.

Where the code and what is said about it disagree, the model follows the code:

* The nonce window accepts a value exactly `window` below the highest one, while `tests/unit/test_encryption.cpp:197-200`
  expects that value to be refused. The header of the nonce manager is not part of this model: that the window can be
  changed at all, by `set_window_size`, is known only from line 184 of that test, and the event `Resize`, which sets the
  window and prunes nothing, is an assumption about it.
* An advertised hop count of 255 wraps to 0 (`src/network/peer_router.cpp:607`), and a peer advertised at 0 hops is kept
  at one hop through its advertiser. `WrappedHopsBreakExactly` and `RebuildKeepsExactly` say when the tables suffer.
* The chunks of a transfer are tracked in bit sets of 1024 bits, which throw when asked about another
  (`src/transfer/transfer_session.cpp:64-87`). At the usual chunk size of 64 KiB that ends a file of more than 64 MiB.
  `RepeatedRequestsCoverFile` and `TransferableExactly` say which files can be requested and transferred.
* A chunk that is accepted twice adds its bytes twice (`src/transfer/transfer_session.cpp:133-134`).
  `CounterEqualsFileSizeExactly` says when the counter is right.
* The metadata of a file does not survive saving as it is (`src/storage/file_metadata.cpp:51-63`).
  `RoundTripIsIdentityExactly` says when it does.

## Model

| member | source | states |
|---|---|---|
| RouterModel.AddDirectKeeps | src/network/peer_router.cpp:338-373 | adding a neighbour gives it an entry and a route of its own with the initial values, changes nothing about any other peer, and keeps the tables consistent: every route belongs to a known peer with the same destination, next hop and hop count, and all hop counts are 1 to 15 |
| RouterModel.RemoveKeeps | src/network/peer_router.cpp:375-400 | after a removal no route leads to the peer or through it, every other route, known peer and neighbour is untouched, and the tables stay consistent |
| RouterModel.CleanUpKeeps | src/network/peer_router.cpp:906-932 | after a cleanup every peer and route is at most thirty minutes old, fresh peers stay and lose a twentieth of their reliability and nothing else, no route with a fresh peer and a fresh stamp is lost, and the tables stay consistent |
| RouterModel.CleanUpKeepsAnswers | src/network/peer_router.cpp:516-525 | for a fresh peer a cleanup changes no answer, since a route more than thirty minutes old counts for nothing already |
| RouterModel.UpdateReliabilityKeeps | src/network/peer_router.cpp:981-998 | feedback raises the reliability of one peer by a tenth or lowers it by a fifth within 0 and 1, measures its route anew, and changes no other entry |
| RouterModel.RebuildKeepsExactly | src/network/peer_router.cpp:1014-1037 | rebuilding answers for exactly the peers known at one hop, each as its own next hop from now on, and keeps the tables consistent if and only if every peer known at one hop is its own next hop |
| RouterModel.HandleUpdateKeeps | src/network/peer_router.cpp:584-649 | any update whose advertised hop counts are not 255 keeps the tables consistent |
| LearnedEntries.EntriesExplained | src/network/peer_router.cpp:600-649 | after an update all a router has on a peer is what it had, or one of the listed entries in every field but one more hop and the sender as next hop, with a route to match that counts from now |
| LearnedEntries.TakenExactly | src/network/peer_router.cpp:607-645 | with room in the table, the only entry about a peer is taken if it is unknown, has a longer route, or one as long with a worse metric, and otherwise nothing about the peer changes |
| LearnedEntries.TakenSurvives | src/network/peer_router.cpp:630-645 | a peer that was taken survives a cleanup with its route as long as the advertised stamp and the update are at most thirty minutes old |
| LearnedEntries.StaleIsForgotten | src/network/peer_router.cpp:630-634 | and it is forgotten where the advertised stamp is older, however new the update |
| LearnedEntries.UpdatesAreCounted | src/network/peer_router.cpp:589-652 | own updates, those from 16 hops on and all that a full table gets change nothing; any other change moves the sequence number by one |
| HopWrap.TableAfter | src/network/peer_router.cpp:600-649 | after any entries the routing table holds its own and all eligible peers as long as these stay below the limit, and is full from then on; peers known without a route stay so |
| HopWrap.WrappedHopsBreakExactly | src/network/peer_router.cpp:584-649 | for every update: consistent tables break if and only if it is heeded and one of its entries advertises another peer at 255 hops, that peer is unknown or has a route, and the entries before it leave room |
| HopWrap.WrappedHopsBreakWithRoom | src/network/peer_router.cpp:584-649 | where the table cannot fill up, the condition is that any such entry occurs |
| HopWrap.WrappedHopBreaksExactly | src/network/peer_router.cpp:607-645 | for one entry the condition holds with a table that may be full |
| RouterModel.RemovalOrphansForGood | src/network/peer_router.cpp:383-390 | a destination that was reached through a removed peer stays known and unroutable under every later sequence of updates |
| RouterModel.MetricIsMonotone | src/network/peer_router.cpp:1000-1012 | fewer hops, more reliability and more bandwidth never make the metric worse, and the first two make it better |
| RouterModel.HopIsHalfAReliability | src/network/peer_router.cpp:1000-1012 | at equal bandwidth one hop fewer outweighs exactly less than a half of reliability |
| RouterModel.BandwidthWeighsAsTime | src/network/peer_router.cpp:1000-1012 | at equal hops the time for a megabyte and the reliability weigh the same |
| RouterModel.TiesFavourTheOffer | src/network/peer_router.cpp:619-625 | at equal hop counts an offer wins if and only if, once learned, it is less than the weight of one hop worse than the route it replaces |
| RouterModel.EqualOffersFlap | src/network/peer_router.cpp:619-645 | so the same offer from two neighbours moves the route to whichever spoke last |
| RouterLearning.ApplyAllLearns | src/network/peer_router.cpp:600-649 | processing the entries of an update never loses or lengthens a route, and every route afterwards is the old one or was learned from some entry through its sender |
| RouterLearning.ApplyAllCovers | src/network/peer_router.cpp:600-649 | with room in the table, every advertised peer is afterwards known at most one hop further than advertised |
| RouterNetwork.ListedPacketIsOk | src/network/peer_router.cpp:864-884 | what a router lists in a broadcast or reply it can itself serve, with hop counts 1 to 15 |
| RouterNetwork.SendsAreNumbered | src/network/peer_router.cpp:864-884 | broadcasts carry consecutive sequence numbers and replies the current one |
| RouterNetwork.ConnectKeeps | src/network/peer_router.cpp:338-373 | adding a neighbour keeps the invariant of the whole network and loses or lengthens no route |
| RouterNetwork.BroadcastKeeps | src/network/peer_router.cpp:864-884 | a broadcast keeps the invariant, whatever the order of its entries |
| RouterNetwork.ReplyKeeps | src/network/peer_router.cpp:667-688 | a reply to a topology sync keeps the invariant |
| RouterNetwork.DeliverKeeps | src/network/peer_router.cpp:584-665 | delivering any packet ever sent, at any time and any number of times, keeps the invariant and loses or lengthens no route |
| RouterNetwork.RunKeeps | src/network/peer_router.cpp:584-688 | every interleaving of additions, broadcasts, replies, deliveries and uneventful cleanups keeps the invariant |
| LoopFreedom.NextHopIsCloser | src/network/peer_router.cpp:584-665 | in every reachable state a route is a link to its destination, or leads over a link to a router whose own route there is strictly shorter |
| LoopFreedom.ForwardingReaches | src/network/peer_router.cpp:516-525 | in every reachable state in which routes to the destination are fresh, following next hops arrives within the router's hop count, at most 15 |
| LoopFreedom.HopsNeverBelowDistance | src/network/peer_router.cpp:584-665 | at no time is a hop count below the length of the shortest walk |
| RouteSafety.SoundStepKeeps | src/network/peer_router.cpp:338-373 | a state is sound if every route leads to its destination or closer and every offer, in a packet or still to be made of a peer known without a route, is served by the one who makes it or declined by the one who gets it; additions, broadcasts, replies, deliveries and uneventful cleanups keep it so |
| RouteSafety.SoundRunKeeps | src/network/peer_router.cpp:584-688 | so does every interleaving of them |
| UnsafeStates.TakesOffer | src/network/peer_router.cpp:600-649 | whatever else an update lists, an offer that is better than the router's route is taken, or another of the same sender that is as good |
| UnsafeStates.BadDelivery | src/network/peer_router.cpp:619-645 | an offer that is neither served nor declined spoils a route when it is delivered with a high enough reliability |
| UnsafeStates.SafeExactly | src/network/peer_router.cpp:584-688 | with at most 10000 routers, every route stays sound in every run from a state if and only if every route is sound in it and it has no bad offer; arriving entries may carry any reliability |
| RouterRemoval.LosingRoutesExactly | src/network/peer_router.cpp:375-400 | when a router loses any of its routes, every route of the network leads to its destination or to a closer router at that moment if and only if no other router relied on it for a lost one |
| RouterRemoval.RemovalKeepsRoutesExactly | src/network/peer_router.cpp:375-400 | at the moment of a removal: if and only if no other router forwards to the remover what is meant for the peer, or for a destination that the remover reaches through it; for what follows see `RouterLoss.RemovalIsSafeExactly` |
| RouterRemoval.CleanUpKeepsRoutesExactly | src/network/peer_router.cpp:906-932 | at the moment of a cleanup: if and only if no other router relies on an entry that has expired; for what follows see `RouterLoss.CleanUpIsSafeExactly` |
| RouterRemoval.RemovalMakesLoop | src/network/peer_router.cpp:375-400 | where a router relied on the remover for the peer itself, its next broadcast makes each of the two forward to the other |
| RouterRemoval.RemovalMakesDeadEnd | src/network/peer_router.cpp:383-390 | where a router does not know a destination behind the removed peer, the next broadcast of the remover makes it forward there what goes no further |
| RouterLoss.LossKeepsSoundExactly | src/network/peer_router.cpp:375-400 | a loss of routes and peers keeps a sound state sound if and only if nobody relied on a lost route, every offer of one is declined, and nothing forgotten is offered without being served, unless it is too far |
| RouterLoss.RemovalIsSafeExactly | src/network/peer_router.cpp:375-400 | from a sound state, a removal leaves every route sound in every run that follows if and only if it meets this condition, read off the tables and packets beforehand |
| RouterLoss.CleanUpIsSafeExactly | src/network/peer_router.cpp:906-932 | likewise for a cleanup and all that has expired |
| RouterLoss.FirstLossIsSafeExactly | src/network/peer_router.cpp:375-400 | where nothing was lost before, the condition is that nobody relied on a lost route, that what the loser's packets offer of it their receivers decline, and that every other router declines what the loser still lists |
| RouterLoss.RemovalKeepsInvariantExactly | src/network/peer_router.cpp:375-400 | a removal keeps the invariant of the network if and only if nobody relied on the remover for the peer, nothing was reached through it, and no packet of the remover lists it |
| RouterLoss.CleanUpKeepsInvariantExactly | src/network/peer_router.cpp:906-932 | a cleanup does if and only if nobody relied on what has expired, no packet of the router lists it, routes and peers expire together and no neighbour does |
| LossyRuns.SafeExactlyWhenHarmless | src/network/peer_router.cpp:375-400 | over any history of steps, removals and cleanups, the network is safe at every point if and only if every removal and cleanup met the condition when it happened |
| LossyRuns.ForwardingReachesAfterLosses | src/network/peer_router.cpp:516-525 | then following fresh next hops arrives within the router's hop count, at most 15 |
| RemovalHazards.RelianceHappens | src/network/peer_router.cpp:338-665 | for any three routers a run from a fresh start leads to the premise of the loop |
| RemovalHazards.OrphanIsPassedOn | src/network/peer_router.cpp:338-665 | for any four routers a run leads to a state in which a removal leaves all routes sound and is not safe, since a router does not know what lies behind the removed peer |
| RemovalHazards.PacketComesTooLate | src/network/peer_router.cpp:375-400 | for any three routers a run does so with nothing behind the removed peer, since a packet that lists it has not arrived |
| RouteConvergence.DeliveryTeaches | src/network/peer_router.cpp:600-649 | one delivery of a packet makes every peer it lists known to the receiver at most one hop further |
| RouteConvergence.ExchangeTeaches | src/network/peer_router.cpp:864-884 | a broadcast processed later, with anything in between, passes on a route at one more hop |
| RouteConvergence.RoundReachesFurther | src/network/peer_router.cpp:584-665 | a round in which every router broadcasts and every neighbour processes it extends correct routing by one hop |
| RouteConvergence.HopCountsConverge | src/network/peer_router.cpp:584-665 | on a fixed graph of at most 10000 routers, after k rounds every hop count to a router at distance up to min(k + 1, 15) is exactly that distance |
| RouteConvergence.ReachableIsSettled | src/network/peer_router.cpp:338-373 | every state reached from a fresh network satisfies the premise of convergence exactly when both ends of all links have added each other |
| RouteDelivery.DecodedUpdateMayArrive | src/network/peer_router.cpp:72-157 | an update written and read back by the codec is one that the network model delivers |
| RoundExists.RoundCanBeRun | src/network/peer_router.cpp:844-884 | in every such state a full round can be carried out |
| PeerRouter.PeerRouter.AddDirectPeer | src/network/peer_router.cpp:338-373 | the new tables are those of the specification |
| PeerRouter.PeerRouter.RemovePeer | src/network/peer_router.cpp:375-400 | the erasing loop leaves exactly the routes that neither lead to the peer nor through it |
| PeerRouter.PeerRouter.CleanUpExpiredEntries | src/network/peer_router.cpp:906-967 | the erasing loops reach the state of the specification, for peers, routes, file locations and remembered queries |
| PeerRouter.PeerRouter.UpdatePeerReliability | src/network/peer_router.cpp:981-998 | the new tables are those of the specification |
| PeerRouter.PeerRouter.RebuildRoutingTable | src/network/peer_router.cpp:1014-1037 | the loop leaves a route for exactly the peers at one hop |
| PeerRouter.PeerRouter.GetNextHop | src/network/peer_router.cpp:516-525 | the next hop of an unexpired route, or nothing |
| PeerRouter.PeerRouter.LearnPeer | src/network/peer_router.cpp:600-649 | one entry of an update, and whether it changed the tables |
| PeerRouter.PeerRouter.HandleRouteUpdate | src/network/peer_router.cpp:584-652 | the loop over an update reaches the state of the specification, with the sequence number moved on exactly if something changed |
| PeerRouter.PeerRouter.ListPeers | src/network/peer_router.cpp:876-878 | every known peer but the excluded ones is listed exactly once |
| PeerRouter.PeerRouter.SendRouteUpdates | src/network/peer_router.cpp:864-884 | nothing is sent when nothing is known; otherwise all known peers under the next sequence number |
| PeerRouter.PeerRouter.HandleTopologySync | src/network/peer_router.cpp:667-688 | the reply lists all known peers but the one asking |
| PeerRouter.PeerRouter.GetFloodingTargets | src/network/peer_router.cpp:1039-1065 | up to five different neighbours other than the origin, as many as there are |
| PeerRouter.PeerRouter.HandleFileQuery | src/network/peer_router.cpp:690-756 | a duplicate within a minute is ignored; otherwise the query is remembered and answered with all own locations of the file, forwarded with one more hop, or dropped at the hop limit |
| QueryModel.OwnExactly | src/network/peer_router.cpp:713-724 | the locations in the answer are exactly those the router itself holds |
| QueryModel.OwnInPlace | src/network/peer_router.cpp:713-724 | in their order and number |
| QueryModel.OwnCopiesExactly | src/network/peer_router.cpp:713-724 | for the file that was asked for |
| QueryModel.IgnoredForAMinute | src/network/peer_router.cpp:690-705 | once a query was processed, every query under its number is ignored for exactly sixty seconds |
| QueryModel.RemembersOnly | src/network/peer_router.cpp:705 | nothing else is remembered or forgotten with it |
| QueryModel.CleanupKeepsVerdicts | src/network/peer_router.cpp:958-967 | a cleanup keeps exactly the queries of the last five minutes and changes no later verdict |
| QueryModel.RecentExactly | src/network/peer_router.cpp:935-946 | a cleanup keeps exactly the locations announced within the last hour |
| QueryModel.RecentInPlace | src/network/peer_router.cpp:935-946 | in their order and number |
| QueryModel.CleanupKeepsLocations | src/network/peer_router.cpp:933-956 | for every file, and files without any are forgotten |
| PeerRouter.PeerRouter.FindFile | src/network/peer_router.cpp:463-503 | known locations are returned, or a query is made under the checksum of its string and remembered as seen |
| QueryIdentity.StringsAreUnambiguous | src/network/peer_router.cpp:475-483 | without bars in names and terms, different queries have different strings |
| QueryIdentity.BarsAreAmbiguous | src/network/peer_router.cpp:475-483 | with a bar in a name they need not: the part behind it is taken for a term |
| QueryIdentity.NearbyQueriesDiffer | src/network/peer_router.cpp:475-491 | queries whose strings differ within four bytes only have different numbers |
| QueryFlood.CachedIsIgnored | src/network/peer_router.cpp:690-705 | a router that has processed the query of this flood ignores every further copy |
| QueryFlood.ArriveKeeps | src/network/peer_router.cpp:690-756 | every arrival keeps the flood's invariant, and six per router still to be reached plus one per copy in flight decrease |
| QueryFlood.ArrivalsRunOut | src/network/peer_router.cpp:690-756 | that measure is never negative in a run from a find_file |
| QueryFlood.FloodEnds | src/network/peer_router.cpp:494-756 | with routers cleaning up at any time, each router processes the query at most once and the origin never, copies have at most 15 hops, and at most 6(n - 1) copies are sent and arrive |
| FloodCoverage.AskingStarts | src/network/peer_router.cpp:475-503 | a find_file starts a flood of its query, under the checksum of its string |
| FloodCoverage.FloodCovers | src/network/peer_router.cpp:742-756 | when nothing is on its way any more, the neighbours of the origin, and those of every router that forwarded the query to at most five, have processed it or had seen its number within the minute before; among at most 16 routers all without an own copy have forwarded it |
| FloodCoverage.FiveHear | src/network/peer_router.cpp:1039-1065 | of more than five neighbours of a router that forwarded it, five have |
| FloodCoverage.OwnersAnswer | src/network/peer_router.cpp:710-740 | a router that processed the query and has a copy of its own has answered the origin, under the number of the query, with its own copies only; one without has not |
| FloodCoverage.FloodReaches | src/network/peer_router.cpp:690-756 | among at most 16 routers the query was heard at the end of every walk whose inner routers have no copy, at most five candidates and did not see its number within the minute before |
| FloodCoverage.FileIsFound | src/network/peer_router.cpp:463-756 | and a copy kept there has been reported to the origin |
| NonceWindow.RunRemembers | src/crypto/encryption.cpp:304-334 | the pruned set keeps every accepted value that the window could still let through |
| NonceWindow.AcceptanceIsExact | src/crypto/encryption.cpp:304-334 | for all 64-bit values a value passes if and only if it was never accepted and its wrapped sum reaches everything accepted |
| NonceWindow.WindowIsExact | src/crypto/encryption.cpp:316-318 | a new value is judged differently from an unwrapped sliding window exactly where the sum wraps and something above the wrapped sum was accepted |
| NonceWindow.AcceptedAtMostOnce | src/crypto/encryption.cpp:304-334 | over every run with a window that never widens and no reset, no value of a peer is accepted twice |
| NonceWindow.KeptExactly | src/crypto/encryption.cpp:320-331 | over every run the kept values are the accepted ones that no later acceptance pushed out of the window then in force |
| NonceWindow.AcceptedAgainExactly | src/crypto/encryption.cpp:304-334 | over every run, with windows growing and shrinking, an accepted value is accepted again if and only if it was pushed out since and its wrapped sum with the present window reaches the highest value |
| NonceWindow.WideningForgetsExactly | src/crypto/encryption.cpp:316-331 | after a run with one window, a new window lets an accepted value through again if and only if v + old window < highest <= v + new window, the latter wrapped |
| NonceWindow.KeptAtMostWindowPlusOne | src/crypto/encryption.cpp:324-331 | over every run, after an acceptance at most window + 1 values are kept |
| NonceWindow.PeersAreIsolated | src/crypto/encryption.cpp:308 | over every run a peer's state and every verdict on it are those of the run without any event of the others |
| NonceManager.NonceRoundTrip | src/crypto/encryption.cpp:44-63 | a nonce is the counter value, lowest byte first, and four random bytes, and the value is recovered from it |
| NonceManager.EraseBelow | src/crypto/encryption.cpp:328-331 | erasing from the front in ascending order removes exactly the values below the cutoff |
| NonceManager.NonceManager.GenerateOutgoingNonce | src/crypto/encryption.cpp:298-302 | nonces carry consecutive counter values, wrapping after 64 bits |
| NonceManager.NonceManager.VerifyIncomingNonce | src/crypto/encryption.cpp:304-334 | verdict and new state are those of the window |
| CongestionWindow.StepKeepsWellFormed | src/transfer/flow_control.cpp:19-42 | an event keeps slow start on exactly below the threshold, the threshold at least 2 and the window the smaller of both, unless it is the one acknowledgement that wraps the counter |
| CongestionWindow.WellFormedExactly | src/transfer/flow_control.cpp:19-42 | a run stays well formed if and only if no acknowledgement wraps the counter |
| CongestionWindow.ShortRunsNeverOverflow | src/transfer/flow_control.cpp:19-42 | no run of fewer than 2^32 - 1 events does |
| CongestionWindow.SlowStartIsUnitGrowth | src/transfer/flow_control.cpp:20-25 | in slow start n acknowledgements open the window by n, and the phase ends at the threshold |
| CongestionWindow.AvoidanceCountsAcks | src/transfer/flow_control.cpp:26-35 | in congestion avoidance cwnd * (cwnd - 1) / 2 plus the acknowledgement count rises by exactly one per acknowledgement, as long as the window stays within 32 bits |
| CongestionWindow.AvoidanceReaches | src/transfer/flow_control.cpp:26-35 | up to the acknowledgement with which the window leaves 32 bits, window k is reached after n acknowledgements if and only if the progress so far plus n covers the k-th triangle |
| CongestionWindow.AvoidanceWrapsAt | src/transfer/flow_control.cpp:26-35 | when the progress reaches the triangle of 2^32, the window becomes zero |
| CongestionWindow.TriangleClosedForm | src/transfer/flow_control.cpp:26-35 | the triangles are k * (k - 1) / 2 |
| CongestionWindow.LeftoverCountSettles | src/transfer/flow_control.cpp:29-34 | an acknowledgement count left over from before a timeout is settled by one early increase |
| CongestionWindow.FirstSlowStart | src/transfer/flow_control.cpp:6-25 | a new transfer opens its window by one with every acknowledgement, from 1 to 1024, where slow start ends |
| CongestionWindow.TimeoutHalves | src/transfer/flow_control.cpp:124-131 | after a timeout at a window c of at least 4 slow start lasts exactly c / 2 - 1 acknowledgements and ends at c / 2 |
| CongestionWindow.RecoversExactly | src/transfer/flow_control.cpp:19-42 | from there the window is back at c after exactly the gap between two triangles, less what was counted before |
| RttEstimator.BlendStaysBetween | src/transfer/flow_control.cpp:48-52 | an average never leaves the range between itself and the sample |
| RttEstimator.RestsExactly | src/transfer/flow_control.cpp:48-52 | truncation makes an average rest if and only if it is zero to seven below the sample |
| RttEstimator.BlendsSettle | src/transfer/flow_control.cpp:48-58 | under a steady sample an average comes to rest within as many samples as its distance |
| RttEstimator.SteadySamplesSettle | src/transfer/flow_control.cpp:44-70 | under a steady round trip the timeout settles between 7 ms below and 21 ms above it, apart from the floor of 100 ms, after as many samples as the first distance, the greater of it and the first variance, and seven |
| RttEstimator.JumpRaisesTimeout | src/transfer/flow_control.cpp:44-70 | one sample longer by d raises the timeout by 5 d / 8, on top of seven eighths of the old variance, to less than 5 ms |
| RttEstimator.DropRaisesTimeout | src/transfer/flow_control.cpp:44-70 | one shorter by d raises it by 3 d / 8 |
| RttEstimator.FirstTimeout | src/transfer/flow_control.cpp:6-17 | before any sample it is 300 ms |
| RequestRate.RunKeeps | src/transfer/flow_control.cpp:76-111 | the queue is always the log of sends without entries older than a second |
| RequestRate.RateHolds | src/transfer/flow_control.cpp:76-111 | over every legal run no closed second of the full log holds more sends than the highest rate set |
| RequestRate.AnswersFromWholeLog | src/transfer/flow_control.cpp:76-94 | every question is answered as if the whole log had been counted |
| RequestRate.PrunedExactly | src/transfer/flow_control.cpp:101-111 | what is left of the queue begins with the first send at most a second old |
| FlowController.FlowController.OnAckReceived | src/transfer/flow_control.cpp:19-38 | the fields follow the window's specification |
| FlowController.FlowController.OnTimeout | src/transfer/flow_control.cpp:124-131 | likewise for a timeout |
| FlowController.FlowController.UpdateRtt | src/transfer/flow_control.cpp:44-61 | likewise for a round-trip sample |
| FlowController.FlowController.CanSendRequest | src/transfer/flow_control.cpp:76-94 | the counting loop gives the limiter's answer and prunes the queue |
| FlowController.FlowController.UpdateRateLimit | src/transfer/flow_control.cpp:101-111 | the popping loop removes exactly the sends at the front that are older than a second |
| TokenBucket.TokensWithinCapacity | src/transfer/bandwidth_limiter.cpp:14-36 | tokens never exceed the capacity, under any settings |
| TokenBucket.Conservation | src/transfer/bandwidth_limiter.cpp:25-91 | tokens left plus bytes granted never exceed the initial tokens plus the rate times the refilled time |
| TokenBucket.GrantedWithinBound | src/transfer/bandwidth_limiter.cpp:25-91 | from a refill to D ms later at most C + R * D / 1000 bytes are granted, whatever is truncated or wraps |
| TokenBucket.LeftAloneIsFull | src/transfer/bandwidth_limiter.cpp:80-91 | left alone for D ms with R * D at least 1000 * C, where nothing wraps, a bucket is full |
| TokenBucket.EarningsAreExact | src/transfer/bandwidth_limiter.cpp:25-91 | in a run that never fills the bucket, tokens and grants are the initial tokens and the rate over the counted milliseconds, to the thousandth part cut off |
| TokenBucket.EarnsAtLeast | src/transfer/bandwidth_limiter.cpp:25-91 | so each refill loses less than one token, |
| TokenBucket.LessThanAMillisecondCutOff | src/transfer/bandwidth_limiter.cpp:80-91 | and less than one millisecond of the clock |
| TokenBucket.FrequentAskingEarnsNothing | src/transfer/bandwidth_limiter.cpp:80-91 | a bucket that earns less than one token between two questions never earns any |
| PriorityDrain.TopExists | include/hypershare/transfer/bandwidth_limiter.hpp:46-52 | a non-empty queue always has a request to offer next |
| PriorityDrain.DrainIsDetermined | src/transfer/bandwidth_limiter.cpp:54-73 | without ties the served requests, their order and the rest are determined by the queue and the tokens |
| PriorityDrain.ServiceOrderMeans | include/hypershare/transfer/bandwidth_limiter.hpp:46-52 | a request is served before all of lower priority, and before all of its own that came later |
| PriorityDrain.OversizedHeadBlocks | src/transfer/bandwidth_limiter.cpp:60-70 | a drain whose every possible head is larger than the capacity serves nothing |
| PriorityDrain.OversizedBlocksForGood | src/transfer/bandwidth_limiter.cpp:43-73 | over every run of additions and drains a request larger than the capacity is never served, and neither is anything behind it in the order of service |
| BandwidthLimiter.BandwidthLimiter.ProcessPendingRequests | src/transfer/bandwidth_limiter.cpp:54-73 | served requests come highest priority and oldest first, with the rest they are the original multiset, they cost the tokens spent, and serving stops only when the queue is empty, no token is left or the head does not fit |
| BandwidthLimiter.BandwidthLimiter.UpdateTokens | src/transfer/bandwidth_limiter.cpp:80-91 | the fields follow the bucket's specification |
| BandwidthLimiter.BandwidthLimiter.CanSend | src/transfer/bandwidth_limiter.cpp:25-29 | refills, then compares |
| BandwidthLimiter.BandwidthLimiter.ConsumeTokens | src/transfer/bandwidth_limiter.cpp:31-36 | spends what is covered and nothing else |
| BandwidthLimiter.DrainIsARunOfSpends | src/transfer/bandwidth_limiter.cpp:60-70 | a drain spends like single sends, so that the bucket's bound covers it |
| SessionModel.RunKeeps | src/transfer/transfer_session.cpp:20-144 | in every run received chunks were requested, requested ones belong to the file and to the 1024 bits, and everything below the next index is requested |
| SessionModel.RequestTakesLowest | src/transfer/transfer_session.cpp:54-87 | a windowed request marks exactly the lowest unrequested chunks, the smaller of the window and what remains of those with a bit, and throws if and only if it asks for more and the file has more |
| SessionModel.RepeatedRequestsCoverFile | src/transfer/transfer_session.cpp:54-87 | repeated requests, each for at least one chunk, request the whole file if and only if it has at most 1024 chunks; for a longer one every further request throws |
| SessionModel.LastOf1025IsNeverRequested | src/transfer/transfer_session.cpp:64-87 | among 1025 chunks the last is never requested in any run, and marking or delivering it throws |
| SessionModel.ThrowsOnlyBeyondCapacity | src/transfer/transfer_session.cpp:54-152 | no operation throws on a file of at most 1024 chunks |
| SessionModel.FirstFailureDecides | src/transfer/transfer_session.cpp:89-131 | the verdict on a delivery names the first failing test: index, bit, request, size, hash |
| SessionModel.OnlyAcceptedChange | src/transfer/transfer_session.cpp:89-144 | only an accepted delivery changes the session, by its chunk, its bytes and perhaps completion |
| SessionModel.MarkedIsAwaited | src/transfer/transfer_session.cpp:82-87 | a chunk marked by hand counts as requested, and nothing else changes |
| SessionModel.RequestBegins | src/transfer/transfer_session.cpp:54-80 | requests are refused unless requesting or transferring, and the first that takes a chunk without throwing begins the transfer |
| SessionBytes.CounterIsTotal | src/transfer/transfer_session.cpp:132-136 | the counter is the total size of all accepted deliveries, modulo its 64 bits |
| SessionBytes.DistinctDeliveriesConserveBytes | src/transfer/transfer_session.cpp:132-136 | with each chunk accepted once it is always the size of the chunks received |
| SessionBytes.AllChunksMakeTheFile | src/storage/file_metadata.cpp:187-208 | with as many chunks as the size divided by the chunk size, rounded up, the chunk sizes add up to the file size |
| SessionBytes.CounterEqualsFileSizeExactly | src/transfer/transfer_session.cpp:132-141 | at completion the counter equals the file size if and only if the bytes of chunks accepted again are a multiple of 2^64; they are none exactly when no chunk was accepted twice |
| SessionBytes.CompleteExactly | src/transfer/transfer_session.cpp:39-42 | unless somebody declares it, a transfer counts as complete if and only if every chunk of the file was received, and then the file has at most 1024 chunks |
| SessionBytes.CompletedExactly | src/transfer/transfer_session.cpp:138-141 | as long as nobody sets the state, it is completed exactly from the last chunk on, and never for a file without chunks |
| TransferSession.TransferSession.StartTransfer | src/transfer/transfer_session.cpp:20-33 | everything is reset but the request times, which are cut or padded |
| TransferSession.TransferSession.RequestNextChunks | src/transfer/transfer_session.cpp:54-80 | the loop reaches the state of the specification, refuses, throws or succeeds as specified, and stamps exactly the new requests |
| TransferSession.TransferSession.MarkChunkRequested | src/transfer/transfer_session.cpp:82-87 | a chunk of the file is marked and stamped, or the bit set throws and nothing changes |
| TransferSession.TransferSession.HandleChunkReceived | src/transfer/transfer_session.cpp:89-144 | verdict and new state are those of the specification, for every error case |
| TransferSession.TransferSession.RetryChunk | src/transfer/transfer_session.cpp:174-186 | only the request time of a chunk of the file is renewed |
| TransferSession.TransferSession.GetTimedOutChunks | src/transfer/transfer_session.cpp:158-172 | exactly the overdue chunks, in ascending order; it throws if and only if the file has more than 1024 chunks |
| ChunkStore.JoinSplit | src/storage/chunk_manager.cpp:16-36 | joining the chunks of a file gives the file |
| ChunkStore.SplitAt | src/storage/chunk_manager.cpp:16-36 | chunk i holds the bytes from i times the chunk size on, only the last may be short and none is empty |
| ChunkStore.SplitCount | src/storage/chunk_manager.cpp:16-36 | the number of chunks is the size divided by the chunk size, rounded up |
| ChunkStore.ChunkPathInjective | src/storage/chunk_manager.cpp:219-229 | two chunks of a file never share a path, not even beyond six digits |
| ChunkStore.FilesShareNoPath | src/storage/chunk_manager.cpp:219-229 | nor do two files whose hashes have equal length |
| ChunkStore.ChunkPathReads | src/storage/chunk_manager.cpp:219-229 | a path is the directory, two letters of the hash, the hash and the number in at least six digits |
| ChunkStore.WriteThenRead | src/storage/chunk_manager.cpp:146-183 | a chunk reads back as last written, and writing it touches no other |
| ChunkStore.ChunkManager.SplitFile | src/storage/chunk_manager.cpp:16-36 | the reading loop yields the chunks of the specification |
| ChunkStore.ChunkManager.MergeChunks | src/storage/chunk_manager.cpp:185-207 | succeeds if and only if every chunk is there and not empty, and then gives their concatenation |
| Reassembly.DescribedCountFits | src/storage/chunk_manager.cpp:77-84 | the chunk count put into the metadata fits the file size |
| Reassembly.DescribedTruly | src/storage/chunk_manager.cpp:38-84 | the metadata hold the hash of the file, its size, and the hash of every chunk |
| Reassembly.ReceivedChunksAreOriginal | src/transfer/transfer_session.cpp:89-144 | at every moment the store holds the original bytes of every received chunk, whatever the order and repetition of deliveries |
| Reassembly.MergeGivesFileBack | src/storage/chunk_manager.cpp:185-207 | once all chunks are received, merging gives the file back |
| Reassembly.MergeSucceedsExactly | src/storage/chunk_manager.cpp:185-207 | from an empty store a merge succeeds if and only if all chunks were received, which takes at most 1024 of them |
| Reassembly.TransferableExactly | src/transfer/transfer_session.cpp:20-144 | some run transfers a file if and only if the file has at most 1024 times the chunk size |
| Framing.HeaderOfSerialized | src/network/protocol.cpp:148-183 | a header takes 32 bytes and reads back as written |
| Framing.AnyBytesAreAHeader | src/network/protocol.cpp:148-183 | any 32 bytes are a header, and the only encoding of it |
| Framing.MadeFrameAcceptableExactly | src/network/protocol.cpp:116-137 | a frame as the program makes it carries the magic bytes HYPE, version 1, its kind, number, time and checksum, and is accepted by the reader if and only if its payload has at most ten mebibytes |
| Framing.AcceptableMeans | src/network/protocol.cpp:127-146 | what is accepted has that magic number and version, the announced size, and the checksum of its payload unless that is empty |
| Framing.ParsersAgree | src/network/message_handler.cpp:36-66 | the parser for a message in memory accepts exactly what the reader of the stream does, apart from the size limit |
| Framing.ReadsOn | src/network/connection.cpp:102-180 | reading in arbitrary pieces delivers what reading at once does |
| Framing.DeliveredAreAcceptable | src/network/connection.cpp:102-180 | only valid frames with matching checksums are delivered, and the stream is their bytes and what is left |
| Framing.RecoversExactly | src/network/connection.cpp:102-180 | the reader recovers exactly the frames sent if and only if all were acceptable |
| Framing.PrefixDeliversPrefix | src/network/connection.cpp:102-180 | from any part of the stream the reader delivers a prefix of the frames and does not give up |
| WriteQueue.RunKeeps | src/network/connection.cpp:55-76 | over every interleaving, as long as the connection is open a write is in progress exactly while something is queued; wire plus queue are the accepted frames in order, and after a failed write the wire is a prefix of them |
| WriteQueue.EndToEnd | src/network/connection.cpp:55-202 | the other end delivers a prefix of the accepted frames, and all of them once the queue has drained and everything arrived |
| Connection.Connection.SendMessage | src/network/connection.cpp:55-76 | the fields follow the specification, and nothing is queued on a connection that is not up |
| Connection.Connection.OnWritten | src/network/connection.cpp:182-202 | completion of a write, successful or not, follows the specification |
| Connection.Connection.Close | src/network/connection.cpp:36-53 | closing a connection that is down changes nothing; otherwise the disconnect handler is called once |
| Connection.Connection.ReadFrame | src/network/connection.cpp:102-180 | one header and payload read delivers, waits or closes as specified |
| Connection.Connection.OnReceived | src/network/connection.cpp:102-180 | the messages delivered are those of reading everything received at once, up to the one upon which the message handler closes the connection |
| Wire.RoundTripsExactly | src/network/protocol.cpp:41-102 | for every layout, decoding undoes encoding, whatever follows, if and only if all sizes fit into 32 bits |
| Wire.PrefixRejected | src/network/protocol.cpp:66-102 | for every layout, every strict prefix of an encoding is rejected |
| Wire.DecodeIsSound | src/network/protocol.cpp:66-102 | for every layout, what is decoded fits it and re-encodes into no more bytes than were consumed; without nested spans these bytes are its encoding |
| Messages.RoundTripsExactly | src/network/protocol.cpp:148-323 | for fifteen strict codecs the message comes back, whatever follows, if and only if its sizes fit into 32 bits: the eight cited, and those at `src/crypto/secure_handshake.cpp:507-607`, `src/crypto/encryption.cpp:67-95`, `src/network/secure_message.cpp:64-93` and `src/network/peer_router.cpp:160-234` |
| Messages.StrictPrefixRejected | src/network/protocol.cpp:148-323 | all of them reject every strict prefix |
| Messages.UniquelyReadable | src/crypto/secure_handshake.cpp:507-607 | neither the fields of a message nor its end can be mistaken |
| Messages.AcceptedIsCanonical | src/network/protocol.cpp:148-323 | an accepted input starts with the one encoding of what it was read as, except for secure messages |
| Messages.SlackIsIgnored | src/network/secure_message.cpp:77-93 | a secure message is also accepted with any bytes behind the encrypted message inside its span |
| Messages.EncryptedBytes | src/crypto/encryption.cpp:67-77 | the bytes of an encrypted message are those that a secure message nests |
| WireBytes.SerializesAs | src/network/protocol.cpp:148-323 | each of the fifteen messages is its fields in order, integers digit by digit and strings behind their sizes |
| RouteUpdateCodec.QuantisationLoss | src/network/peer_router.cpp:88-97 | the receiver loses less than a millisecond and less than a millionth, and nothing on a second trip |
| RouteUpdateCodec.RoundTripQuantises | src/network/peer_router.cpp:72-157 | a route update comes back quantised, whatever follows |
| RouteUpdateCodec.SameBytesExactlyWhenSameQuantised | src/network/peer_router.cpp:72-104 | two updates have the same bytes if and only if their receivers see the same |
| RouteUpdateCodec.StrictPrefixRejected | src/network/peer_router.cpp:106-157 | every strict prefix is rejected |
| RecordBytes.UpdateSerializesAs | src/network/peer_router.cpp:72-104 | an update is its sender, count, number, hop count and entries, digit by digit |
| FileResponseCodec.RoundTripQuantises | src/network/peer_router.cpp:237-295 | a response to a file query comes back quantised in the same way, whatever follows |
| FileResponseCodec.StrictPrefixRejected | src/network/peer_router.cpp:264-295 | every strict prefix of it is rejected |
| RecordBytes.ResponseSerializesAs | src/network/peer_router.cpp:237-262 | a response is the query's number, the one who answers, count and locations, digit by digit |
| ByteBuffer.Writer.WriteUint32 | src/network/peer_router.cpp:36-41 | the shifted bytes are the little-endian bytes of the value |
| ByteBuffer.Reader.ReadUint32 | src/network/peer_router.cpp:43-53 | the value of the next four bytes, or nothing read |
| ByteBuffer.Reader.ReadString | src/network/peer_router.cpp:60-69 | the string ahead, or failure exactly where the size does not fit |
| RouteUpdateBuffer.SerializeUpdate | src/network/peer_router.cpp:72-104 | the pushing loop produces the encoding of the layout |
| RouteUpdateBuffer.DeserializeUpdate | src/network/peer_router.cpp:106-157 | the reading loop accepts and returns exactly what decoding the layout does |
| FileMetadataCodec.RoundTripNormalises | src/storage/file_metadata.cpp:18-165 | saving replaces the chunk count by the number of hashes and drops the tags, once and for all |
| FileMetadataCodec.RoundTripIsIdentityExactly | src/storage/file_metadata.cpp:18-165 | saving is the identity if and only if all sizes fit into 32 bits, the count is the number of hashes and there are no tags |
| RecordBytes.MetadataSerializesAs | src/storage/file_metadata.cpp:18-77 | the saved bytes, digit by digit |
| Transcripts.SignatureComesLast | src/crypto/secure_handshake.cpp:507-531 | a message is sent as what was signed followed by the signature |
| Transcripts.TagIsReadable | src/crypto/secure_handshake.cpp:610-618 | equal signature data have equal tags and equal contents |
| Transcripts.TranscriptsAreInjective | src/crypto/secure_handshake.cpp:520-633 | equal signed strings come from the same kind of transcript with the same fields and the same handshake context |
| RecordBytes.InitiationSigned | src/crypto/secure_handshake.cpp:610-618 | what an initiator signs is its tag behind its size and the message without the signature |
| RecordBytes.ResponseSigned | src/crypto/secure_handshake.cpp:610-633 | a responder signs likewise, and the handshake context behind it |
| RecordBytes.ContextSerializesAs | src/crypto/secure_handshake.cpp:620-633 | the context is its tag and the four keys, the initiator's before the responder's |
| Endian.IntRoundTrip | src/network/peer_router.cpp:36-53 | an integer reads back from its bytes, in all three byte orders |
| Endian.IntBound | src/network/protocol.cpp:66-94 | every byte string of a width is the encoding of exactly one value below its bound |
| Endian.IntsAreDigits | src/network/protocol.cpp:36-58 | what each byte order writes, by the weights of the bytes |
| Crc32.CalculateCrc32 | src/network/peer_router.cpp:19-34 | the two loops compute the checksum of the specification |
| Crc32.BitStepsInjective | src/network/peer_router.cpp:25-31 | turning the register loses nothing |
| Crc32.HighBitsFallThrough | src/network/peer_router.cpp:25-31 | bits above the low byte arrive unchanged eight steps later |
| Crc32.BurstDetected | src/network/peer_router.cpp:19-34 | two equally long byte strings that differ only inside four consecutive bytes have different checksums |
| Crc32.CheckValue | src/network/peer_router.cpp:19-34 | the published checksum of the single letter a |

## Left out

- Sockets, UDP discovery, threads, mutexes, IPC, command line, configuration, logging and demos: input and output around the modelled logic.
- Ed25519, X25519, ChaCha20-Poly1305 and BLAKE3: hashes appear as arbitrary functions, with freedom from collisions as a stated hypothesis where it is needed.
- Completion of the handshake and key agreement: the client never stores the peer's identity and the two sides build their contexts with roles swapped (`src/crypto/secure_handshake.cpp:210-215` against `319-324`), so nothing is claimed about them.
- The table-driven CRC of the message headers: its table is cut short in the source, so it is an arbitrary function here.
- Convergence and distances after a removal or an expiry: they are stated for runs without; what stays then is the soundness of routes.
- Links that are down: `links` holds every link that ever came up, and a removal changes the tables of one end.
- Reliabilities on arrival: the network model delivers entries with any reliability, so at equal hop counts a tie may go either way.
- Stability of next hops: it does not hold (`RouterModel.EqualOffersFlap`), so the network theorems speak of hop counts.
- Rounding of metrics, reliabilities and round-trip averages: they are reals and exact integers here.
- Route updates carry a time stamp of at most 64 bits of milliseconds; the C++ conversion of one beyond 2^63 nanoseconds overflows, and here it does not.
- Encodable: route updates with a reliability outside 0 to 4294.967295 have an undefined encoding in C++ and are excluded.
- The codecs of `file_protocol.cpp`: they replace malformed input by defaults.
- FileMetadataCodec.Deserialize: the source reads past the end of short data, which is undefined; the model returns nothing there.
- TransferSession.constructor: construction and the first start of a transfer are one step, since the metadata is not initialised in between; request times start at zero.
- TransferSession.TransferSession.HandleChunkReceived: needs a chunk size above zero, since the source divides by it.
- PeerRouter.PeerRouter.FindFile: the hash string of a query, which is its identifier in decimal, is not carried along, and collisions of identifiers are not examined.
- Copies of a file query are assumed to arrive at most once each and within one minute of its start; afterwards routers treat it as new. A router that saw the same number within the minute before the start ignores it at first (`FloodCoverage.Deaf`).
- Announcing and removing files, storing the locations of a response, and the choice of optimal peers.
- FlowController: the acknowledgement count is shared by all controllers of the program (`src/transfer/flow_control.cpp:29`); the model has one controller.
- PriorityDrain: the heap behind the queue of pending requests is a multiset with the same order.
- Streams that fail while a chunk is written or merged.
- MessageQueue, FileIndex, ConnectionManager, NetworkManager, FileAnnouncer, PerformanceMonitor, ResumeManager and string helpers: maps and wiring that would only add easy members.
