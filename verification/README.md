# Verified models of the fips-ts protocol logic

fips-ts is a mesh network stack: authenticated links (FMP), end-to-end sessions (FSP), a self-organising spanning tree, route
learning, lookup flooding, fragmentation and replay protection. This project models the stateful protocol logic of
`packages/core` in Dafny and proves what that logic is for. `dafny verify dfyconfig.toml` checks all of it.

Each module follows one source file or one property that spans several. State that the source updates in place is a class whose
methods are proved against functions on values; the theorems are lemmas about those functions, about all inputs, all runs or all
reachable states.

| part | modules | main results |
|---|---|---|
| Spanning tree | `TreeCoordinates`, `TreeElection`, `TreeNetwork`, `TreeRecovery`, `TreeAnnouncements`, `TreeForwarding`, `TreeCodec` | `TreeNetwork.Convergence`, `TreeRecovery.Recovery`, `TreeAnnouncements.AsynchronousConvergence`, `TreeForwarding.PacketArrives`, `TreeForwarding.RoutesDoNotLoop`, the cached state of `TreeState` equals a fresh election |
| FSP sessions | `FspHandshakes`, `FspSessions`, `FspOutcomes`, `FspRuns`, `FspRestarts`, `FspDeliveries` | `FspRuns.NoSplitBrain`, `FspRuns.EveryStartComesUp`, `FspSessions.RekeySafety`, `FspOutcomes.HandedOnExactlyIf`, `FspDeliveries.DeliveredOnce`, `FspRestarts.RestartsAlternate` |
| Fragmentation | `DirectTransport`, `Reassembly` | `Reassembly.ReassemblyUndoesSegmentation`, `Reassembly.DirectFrameComesOut`, `DirectTransport.SegmentedExactlyIf` |
| Replay and channels | `ReplayWindows`, `Channels` | `ReplayWindows.RingRefinesSet`, `ReplayWindows.WindowExactly`, `Channels.AtMostOnce`, `Channels.ReadIsSent`, `Channels.DeliveredOnArrival` |
| Learned routes | `LearnedRoutes`, `RouteReports` | `LearnedRoutes.Fairness`, `LearnedRoutes.SelectionConservesWeight`, `RouteReports.SelectionOutcome`, `RouteReports.ReportsAreCounted` |
| Noise | `NoiseStates`, `NoiseHandshakes`, `NoiseSecrets`, `NoiseReads` | `NoiseHandshakes.HandshakeAgrees`, `NoiseSecrets.HandshakeChain`, `NoiseHandshakes.FailedReadChangesNothing` |
| Lookups | `LookupRequests`, `LookupOutcomes`, `LookupSends`, `OriginSends`, `LookupFlood`, `OriginLookups` | `LookupOutcomes.LookupReturns`, `LookupFlood.ReversePathsFormATree`, `LookupSends.EachHopOnce`, `LookupSends.EachHopOnceExactlyIf`, `OriginLookups.IndexesAgree` |
| Caches and codecs | `TopK`, `RecentPeers`, `BloomFilters`, `BinaryCodec`, `CoordLists`, `DiscoveryCodec`, `FspWire`, `WireLayouts` (with `Wrappers`, `Collections` and `Powers` for shared types and facts) | order independence, `BloomFilters.KeysAreKeptExactlyIf`, mutual inverses, and in `WireLayouts` exactly which bytes each decoder accepts |

How the source's surroundings appear:

- A node address is an opaque ordered number, in the FSP modules also the static key it is derived from; `TreeCodec.ByteOrderIsNumeric`
  shows that byte-wise comparison is that order.
- Clocks, random draws, fresh key material and admission checks are parameters. Code between two awaits is one step, so any
  interleaving of such steps is covered by the statements about all steps and runs.
- Cryptography is ideal in the channel and session modules: a sealed text opens under exactly its key, nonce and associated data, and a
  handshake message opens exactly for the party on the same transcript. In the Noise modules the primitives are arbitrary functions
  subject to `NoiseStates.Lawful`; secrecy is not modelled.
- Scores and weights are reals. x^1.5 is a function parameter; where its value matters (`RouteReports`) it is the non-negative one whose
  square is the cube.

Where the code does not do what a reader might expect, the model follows the code:

- A lookup request can go to one neighbour twice: the fallback batch is filtered against the remembered hops before any of its own
  hops is remembered, and links, not nodes, are listed. `LookupSends.NeighbourReachedTwice` shows a case; `LookupSends.EachHopOnce`
  and `LookupSends.EachHopOnceExactlyIf` give the exact condition on what the handler finds when the request arrives,
  `OriginSends.OriginHopOnceExactlyIf` the one for the origin.
- `BloomFilter.union` does not compare sizes, and `merge` does not compare hash counts. `BloomFilters.MergeLosesAKey` and
  `BloomFilters.UnionLosesAKey` show lost keys; `BloomFilters.KeysAreKeptExactlyIf` gives the exact condition on the sizes and hash
  counts alone. A key is any pair of digest words; which bytes have that digest is not part of this model.
- `OriginLookupRegistry.create` does not look for an existing lookup of its target; `OriginLookups.CreateKeepsAgreement` shows that the
  indexes agree afterwards exactly if there was none. Both callers look first.
- A session whose remote starts over under its old epoch is promoted with the opposite K-bit, while the remote starts with K-bit 0;
  `packages/core/src/node/FipsNode.ts:642-648` keeps sessions through the loss of a link to avoid it as long as a route is left.
  `FspRestarts.SecondStartEndsApart` is a run that ends so, `FspRestarts.RestartsAlternate` says what follows in every such run, and
  `FspRestarts.InitiatorIsHeardExactlyIf`, `FspRestarts.ResponderIsHeardExactlyIf` and `FspRestarts.OldRecordsDrain` say which
  records still get through after any rekeying.
- The branch of `handleEstablished` that promotes an established pending session is never taken (`FspSessions.RecordNeverRekeys`).
- In a crossed setup the node with the larger address closes its own attempt before it looks at the other's Setup, so a Setup that
  does not decode ends that attempt too; `FspSessions.HandleSetupFrame` keeps this order.

## Model

| member | source | states |
|---|---|---|
| `TreeCoordinates.TreeDistance` | packages/core/src/node/TreeState.ts:125-133 | the loop over matching ancestors computes Distance: hops over the deepest common ancestor, or Infinity (None) under different roots |
| `TreeCoordinates.DistanceIsZeroOnlyOnEquals` | packages/core/src/node/TreeState.ts:125-133 | distance 0 exactly between equal coordinates |
| `TreeCoordinates.DistanceIsSymmetric` | packages/core/src/node/TreeState.ts:125-133 | the distance is symmetric, Infinity included |
| `TreeCoordinates.TriangleInequality` | packages/core/src/node/TreeState.ts:125-133 | triangle inequality among coordinates of one root |
| `TreeCoordinates.DistanceIsShortestWalkLength` | packages/core/src/node/TreeState.ts:125-133 | the distance is the length of a shortest parent/child walk on the tree, and there is no walk exactly when it is Infinity |
| `TreeCoordinates.NextOnWalkIsNearer` | packages/core/src/node/TreeState.ts:125-133 | climbing to the deepest common ancestor and descending is one hop nearer at each step |
| `TreeElection.ElectionOutcome` | packages/core/src/node/TreeState.ts:96-118 | the elected coordinates, in terms of the best candidate only: self alone, or self on top of the peer with the least root, then least depth, then least address |
| `TreeElection.ElectionPicksLeast` | packages/core/src/node/TreeState.ts:96-118 | of the peers whose ancestry avoids the node, the parent is the one with the least root, then the shortest ancestry, then the least address, if that root is below the node itself; otherwise the node is its own root |
| `TreeElection.ElectedRootIsMinimum` | packages/core/src/node/TreeState.ts:96-118 | the elected root is the minimum of the node itself and the eligible peers' roots |
| `TreeElection.ElectionHasNoRepeats` | packages/core/src/node/TreeState.ts:96-118 | elected coordinates repeat no node if no peer's do |
| `TreeElection.ElectedAncestryIsValid` | packages/core/src/protocol/tree.ts:118-132 | an announcement on elected coordinates passes the receiver's semantic validation |
| `TreeElection.BestAgrees` | packages/core/src/node/TreeState.ts:96-106 | two peer tables that agree on each other's best candidate elect the same one |
| `TreeElection.TreeState.constructor` | packages/core/src/node/TreeState.ts:16-26 | a new node is its own root with sequence 1 |
| `TreeElection.TreeState.UpdatePeer` | packages/core/src/node/TreeState.ts:50-60 | keeps only newer announcements; afterwards the cached parent and coordinates equal a fresh election; sequence grows exactly when they change |
| `TreeElection.TreeState.RemovePeer` | packages/core/src/node/TreeState.ts:62-65 | drops the peer and re-elects, with the same invariant |
| `TreeElection.TreeState.Reset` | packages/core/src/node/TreeState.ts:67-70 | drops every peer; the node is its own root again |
| `TreeElection.TreeState.EvaluateParent` | packages/core/src/node/TreeState.ts:96-118 | re-establishes that parent and coordinates are those of an election over the retained announcements; sequence strictly grows when they change and nothing moves when they do not |
| `TreeElection.TreeState.BuildAnnounce` | packages/core/src/node/TreeState.ts:40-48 | the announcement always passes its own validator and carries the node's coordinates and sequence |
| `TreeElection.TreeState.NextHop` | packages/core/src/node/TreeState.ts:81-94 | the eligible peer strictly nearer the destination at least distance, least address on ties; none exactly when no eligible peer is nearer |
| `TreeElection.NextHopPicksNearest` | packages/core/src/node/TreeState.ts:81-94 | the next hop against any one eligible peer, in distances: strictly nearer than the node, no farther than the peer, and of equals the least address |
| `TreeForwarding.NextHopIsUnique` | packages/core/src/node/TreeState.ts:81-94 | the next hop is determined by coordinates, table, destination and eligibility |
| `TreeNetwork.RoundsElectShortestPaths` | packages/core/src/node/TreeState.ts:50-60 | after k rounds every node's coordinates are a path of at most k+1 nodes that beats every such path |
| `TreeNetwork.FixedAfterDistance` | packages/core/src/node/TreeState.ts:96-118 | a node at distance k from the least address is fixed from round k on |
| `TreeNetwork.Convergence` | packages/core/src/node/TreeState.ts:96-118 | on a finite connected graph, from all nodes self-rooted, rounds reach and keep a state where every node holds a shortest path to the globally least address |
| `TreeRecovery.Recovery` | packages/core/src/node/TreeState.ts:50-118 | from any coordinates left over, also over nodes that are gone, after 2n - 1 rounds every node holds a shortest path to the least address, nothing moves any more, and the tree is the one self-rooted nodes elect |
| `TreeRecovery.StaleRootsVanish` | packages/core/src/node/TreeState.ts:62-118 | from round n on no coordinates name a node that is gone |
| `TreeRecovery.StaleRootLasts` | packages/core/src/node/TreeState.ts:62-118 | and on a line of n nodes, for every n, the far end still names the departed root in round n - 1 |
| `TreeRecovery.ExecutionsAgree` | packages/core/src/node/TreeState.ts:96-118 | two executions with sound coordinates agree within k links of the least address k rounds later |
| `TreeAnnouncements.AsynchronousConvergence` | packages/core/src/node/FipsRouting.ts:458-489 | the same tree is reached and kept when announcements are delivered late, each link in order: once everything in flight has been delivered 2n - 1 times over, from any leftover state and whatever else is announced meanwhile |
| `TreeAnnouncements.PhaseAdvances` | packages/core/src/node/TreeState.ts:50-60 | each time everything in flight has been delivered, all that is retained, in flight and elected is one level nearer the final tree |
| `TreeAnnouncements.ElectsNearer` | packages/core/src/node/TreeState.ts:96-118 | an election over neighbours at one level gives coordinates at the next: first deeper over present nodes, then final one link further from the least address |
| `TreeAnnouncements.StepKeepsInvariant` | packages/core/src/node/TreeState.ts:40-60 | over every link sequence numbers order the news, the newest are the sender's current coordinates, and every node holds an election over what it retains |
| `TreeAnnouncements.PhaseExists` | packages/core/src/node/FipsRouting.ts:465-489 | in every such state all that is in flight can be delivered, so such runs exist |
| `TreeAnnouncements.FreshIsStart` | packages/core/src/node/TreeState.ts:16-26 | self-rooted nodes with their first announcements on the way are such a state |
| `TreeNetwork.DeliveryGivesHeardTable` | packages/core/src/node/TreeState.ts:50-60 | delivering every neighbour's announcement through the retention rule gives exactly the table one round works on |
| `TreeNetwork.NewestIsKept` | packages/core/src/node/TreeState.ts:50-60 | whatever announcements of a node arrive, in any order and repeated, what is retained is the first of those with the greatest sequence number, or what was there if none exceeds it |
| `TreeForwarding.ConvergedIsSettled` | packages/core/src/node/TreeState.ts:96-118 | the converged network is one in which forwarding is analysed |
| `TreeForwarding.GreedyProgress` | packages/core/src/node/TreeState.ts:81-94 | away from the destination the next hop is a neighbour at strictly smaller distance; at the destination there is none |
| `TreeForwarding.RoutesDoNotLoop` | packages/core/src/node/TreeState.ts:81-94 | no forwarding route visits a node twice or is longer than the initial distance |
| `TreeForwarding.Delivery` | packages/core/src/node/TreeState.ts:81-94 | a route that cannot be prolonged has arrived |
| `TreeForwarding.PacketArrives` | packages/core/src/node/TreeState.ts:81-94 | from every node a packet reaches every destination within the initial distance |
| `TreeCodec.ByteOrderIsNumeric` | packages/core/src/protocol/tree.ts:118-132 | comparing addresses byte by byte is comparing the numbers they spell |
| `TreeCodec.SemanticsAgree` | packages/core/src/protocol/tree.ts:118-132 | the validator on bytes agrees with the one on ordered addresses used above |
| `TreeCodec.TreeAnnounceRoundTrip` | packages/core/src/protocol/tree.ts:56-100 | decoding undoes encoding for every valid announcement |
| `TreeCodec.TreeAnnounceIsCanonical` | packages/core/src/protocol/tree.ts:75-100 | every accepted byte string is the encoding of what it decodes to |
| `TreeCodec.EncodeTreeAnnounce` | packages/core/src/protocol/tree.ts:56-73 | the writer loop succeeds exactly on valid announcements and writes their bytes |
| `TreeCodec.DecodeTreeAnnounce` | packages/core/src/protocol/tree.ts:75-100 | the reader loop accepts exactly what the parser accepts |
| `WireLayouts.TreeAnnounceLayout` | packages/core/src/protocol/tree.ts:75-132 | exactly which bytes are a TreeAnnounce, and which field is where |
| `FspHandshakes.ReplayIsIdempotent` | packages/core/src/fsp/session.ts:155-191 | an answered Setup, Ack or Msg3 is answered identically again without a state change, and any other packet of its kind is then refused without one |
| `FspHandshakes.HandshakeCrossesKeys` | packages/core/src/fsp/session.ts:120-149 | Setup, Ack and Msg3 between two ends give crossed, distinct keys, each other's epoch, and the responder the initiator's identity |
| `FspOutcomes.SetupBuiltExactlyIf` | packages/core/src/fsp/session.ts:120-149 | a Setup is built exactly by an initiator that knows whom to reach and has not begun |
| `FspOutcomes.SetupAnsweredExactlyIf` | packages/core/src/fsp/session.ts:155-191 | a Setup is answered exactly by a responder, if it is whole and the first, or the one answered before; with which Ack and state |
| `FspOutcomes.RecordReadExactlyIf` | packages/core/src/fsp/session.ts:334-358 | a record is read exactly by an established end that has not seen its counter, if it is whole and sealed for it; the counter is then seen, also if the inner message does not decode |
| `FspHandshakes.FspSession.constructor` | packages/core/src/fsp/session.ts:83-101 | a new end in state init |
| `FspHandshakes.FspSession.BuildSessionSetup` | packages/core/src/fsp/session.ts:120-149 | builds the Setup once and starts handshaking, only as initiator with a known remote key |
| `FspHandshakes.FspSession.HandleSessionSetup` | packages/core/src/fsp/session.ts:155-191 | the cached reply on an exact replay, an error on any other second Setup, otherwise one Ack and the handshaking state |
| `FspHandshakes.FspSession.HandleSessionAck` | packages/core/src/fsp/session.ts:215-240 | as above for the Ack; the initiator becomes established |
| `FspHandshakes.FspSession.HandleSessionMsg3` | packages/core/src/fsp/session.ts:262-279 | as above for Msg3; the responder learns the remote key and becomes established |
| `FspHandshakes.FspSession.EncryptMessage` | packages/core/src/fsp/session.ts:299-328 | checks in the source's order; each record takes the next counter, also one whose flags or length are then refused; none is sealed at or past the reserved counter or before establishment |
| `FspHandshakes.FspSession.DecryptIncoming` | packages/core/src/fsp/session.ts:334-358 | a record is accepted exactly if it is fresh in the window and sealed under the receiving key; only then does the window move |
| `FspHandshakes.FspSession.Close` | packages/core/src/fsp/session.ts:360-365 | drops handshake and keys |
| `FspSessions.RecordNeverRekeys` | packages/core/src/node/FspSessionManager.ts:314-378 | no record changes keys, K-bit or the pending session; the branch that would promote a pending session on a record is never taken |
| `FspSessions.SetupNeverRekeys` | packages/core/src/node/FspSessionManager.ts:441-519 | over an established session a Setup changes nothing but the pending session, which then belongs to that Setup and is what the reply answers; a repeated Setup gets the cached Ack |
| `FspSessions.RekeySafety` | packages/core/src/node/FspSessionManager.ts:314-567 | whatever arrives, the keys, K-bit and draining epoch of an established session change exactly when an authentic Msg3 from the claimed, admitted node completes the pending handshake; the new epochs are determined, including the drop of everything old after a remote restart |
| `FspSessions.FrameKeepsInvariant` | packages/core/src/node/FspSessionManager.ts:242-285 | every frame keeps: the pending session is handshaking, the draining K-bit is the opposite of the current one, an established session belongs to its source, the early queue is counted and at most 16 records and 64 KiB |
| `FspSessions.StartKeepsInvariant` | packages/core/src/node/FspSessionManager.ts:641-718 | starting a session keeps the same invariant and leaves a session that is up or under way |
| `FspSessions.DrainNeverRekeys` | packages/core/src/node/FspSessionManager.ts:602-620 | draining queued records moves only receive windows |
| `FspSessions.FreshInitiatorKBit` | packages/core/src/node/FspSessionManager.ts:535-567 | a remote that starts over expects K-bit 0; this side agrees with it exactly if the remote epoch is new or its own K-bit was 1 |
| `FspSessions.SendingKeepsInvariant` | packages/core/src/node/FspSessionManager.ts:183-209 | a sent record carries the session's K-bit under its sending key and the next counter; nothing else of the session changes |
| `FspSessions.RecordsMayOvertakeMsg3` | packages/core/src/node/FspSessionManager.ts:578-620 | records that arrive before Msg3 end in the same session and the same deliveries as if they had come after it |
| `FspSessions.FspSessionManager.constructor` | packages/core/src/node/FspSessionManager.ts:104-107 | a manager without sessions |
| `FspSessions.FspSessionManager.HandleFromPeer` | packages/core/src/node/FspSessionManager.ts:242-285 | one frame changes the session of its source as HandleFrame says and no other, with the reply and the deliveries |
| `FspSessions.FspSessionManager.ReceiveEstablished` | packages/core/src/node/FspSessionManager.ts:314-378 | queue, current, pending or draining keys, in the order of the source, draining epoch pruned first |
| `FspSessions.FspSessionManager.ReceiveSetup` | packages/core/src/node/FspSessionManager.ts:441-519 | the cases of a Setup: replay, new pending, crossed setups decided by address, new session |
| `FspSessions.FspSessionManager.ReceiveAck` | packages/core/src/node/FspSessionManager.ts:267-278 | the Ack goes to the current session; its reply is the Msg3 |
| `FspSessions.FspSessionManager.ReceiveMsg3` | packages/core/src/node/FspSessionManager.ts:521-576 | the pending session first; identity failures drop the pending session or the session; otherwise promote or replace, then drain |
| `FspSessions.FspSessionManager.QueueEarlyRecord` | packages/core/src/node/FspSessionManager.ts:578-600 | bounded queue of early records |
| `FspSessions.FspSessionManager.DrainEarlyRecords` | packages/core/src/node/FspSessionManager.ts:602-620 | handles the queued records in order, each failure on its own |
| `FspSessions.FspSessionManager.EnsureSession` | packages/core/src/node/FspSessionManager.ts:641-680 | starts a session only if none is up or under way |
| `FspRuns.NoSplitBrain` | packages/core/src/node/FspSessionManager.ts:441-576 | in every run of two nodes over a lossy, duplicating, reordering network, when both are established one initiated and one responded, under one K-bit and with crossed keys |
| `FspRuns.LostMsg3IsReplayed` | packages/core/src/fsp/session.ts:215-240 | in every run, while the responder waits, its Ack delivered again brings the same Msg3, and that establishes it |
| `FspRuns.CrossedSetups` | packages/core/src/node/FspSessionManager.ts:478-500 | in every run in which both nodes have started and neither is up, the Setup of the small side makes the large side give way and answer it, while that of the large side leaves the small side as it was |
| `FspRuns.EveryStartComesUp` | packages/core/src/node/FspSessionManager.ts:441-576 | progress: from every reachable state in which somebody has started, delivering at most three frames, each of them sent already or a reply to the one before, brings both sides up with crossed keys |
| `FspRestarts.RestartsAlternate` | packages/core/src/node/FspSessionManager.ts:314-567 | a node that closes and starts its session again and again in one epoch, with any records in between: after an odd number of sessions the two ends agree on the K-bit and hear each other, after an even number they disagree and neither hears anything |
| `FspRestarts.EveryStartSucceeds` | packages/core/src/node/FspSessionManager.ts:441-567 | each of these handshakes nevertheless completes with crossed keys |
| `FspRestarts.SecondStartEndsApart` | packages/core/src/node/FspSessionManager.ts:535-567 | the shortest run from managers without sessions that ends in disagreement |
| `FspRestarts.InitiatorIsHeardExactlyIf` | packages/core/src/node/FspSessionManager.ts:314-378 | what the initiator of a rekeying seals is delivered, up to the window, exactly if its epoch was new or the responder's K-bit was 1; otherwise it is tried under draining keys or none |
| `FspRestarts.ResponderIsHeardExactlyIf` | packages/core/src/node/FspSessionManager.ts:314-378 | what the responder seals after it reaches the initiator under the same condition; otherwise it is an epoch mismatch |
| `FspRestarts.OldRecordsDrain` | packages/core/src/node/FspSessionManager.ts:314-400 | records of the epoch before are delivered for the time of draining if the remote epoch stayed, and never after a restart under a new one |
| `FspDeliveries.DeliveredOnce` | packages/core/src/node/FspSessionManager.ts:314-640 | in every run of starts, closes and arbitrary arriving frames, over promotion, replacement, draining and early queues, no two bodies handed on come from one counter of one key |
| `FspDeliveries.RecordKeepsMarks` | packages/core/src/node/FspSessionManager.ts:314-378 | what is handed on opened under the current or the draining keys, was not marked in their window and is afterwards |
| `FspDeliveries.Msg3FrameKeepsMarks` | packages/core/src/node/FspSessionManager.ts:521-567 | so it is for the records a completed handshake takes from the early queue |
| `FspRuns.StepKeepsInvariant` | packages/core/src/node/FspSessionManager.ts:242-285 | the invariant of two-node runs: an established initiator faces the responder that sent its Ack, and an established responder the initiator whose Msg3 it took |
| `FspOutcomes.HandedOnExactlyIf` | packages/core/src/node/FspSessionManager.ts:314-378 | a record is handed on exactly if the session is up, the record is whole and sealed under the receiving key of the current end, or of one that still drains, as its K-bit says, and its counter is new there |
| `FspOutcomes.WaitsExactlyIf` | packages/core/src/node/FspSessionManager.ts:578-600 | a record waits exactly while a handshake is under way that it may belong to, up to sixteen records and 64 KiB |
| `FspOutcomes.SealedExactlyIf` | packages/core/src/fsp/session.ts:299-328 | when a record is sealed, its size, counter, key and K-bit, and when only its counter is used up |
| `FspOutcomes.SetupOutcome` | packages/core/src/node/FspSessionManager.ts:441-519 | for every session and Setup: the same Ack for a Setup answered before, silence towards a larger address while the own Setup is out, otherwise a fresh responder beside, instead of, or without a session; one that does not decode ends an attempt that would have given way |
| `FspOutcomes.AckOutcome` | packages/core/src/fsp/session.ts:215-240 | an Ack brings the session up exactly if it continues the Setup sent and comes from the node it was sent to; repeated it brings the same Msg3; any other changes nothing |
| `FspOutcomes.Msg3Completes` | packages/core/src/node/FspSessionManager.ts:521-576 | a Msg3 completes a handshake exactly if it continues its Ack, names the node it comes from and that node is admitted; the old end drains for 45 seconds under the old K-bit unless the remote epoch is new; what remains if only name or admission fail |
| `FspOutcomes.Msg3Repeats` | packages/core/src/node/FspSessionManager.ts:521-576 | with no handshake under way only the very Msg3 that brought the session up counts |
| `FspOutcomes.StartOutcome` | packages/core/src/node/FspSessionManager.ts:641-718 | a handshake is started exactly if none is up or under way, with the Setup it sends |
| `FspOutcomes.FlagsAre` | packages/core/src/fsp/session.ts:368-375 | the flags a caller may pass are 0, 2, 8 and 10 |
| `FspOutcomes.IgnoredFrames` | packages/core/src/node/FspSessionManager.ts:242-285 | frames of a node that is not admitted, of unknown kind, or without a session unless it is a Setup, change nothing |
| `ReplayWindows.RingRefinesSet` | packages/core/src/crypto/replay.ts:6-41 | over every sequence of check, accept and reset the 2048-slot ring answers as the unbounded set of accepted counters with its maximum |
| `ReplayWindows.WindowExactly` | packages/core/src/crypto/replay.ts:6-41 | after any counters were offered, a counter passes exactly if it is below 2^64 - 1, was never offered, and no counter in range 2048 or more above it was |
| `ReplayWindows.ReplayWindow.constructor` | packages/core/src/crypto/replay.ts:6-11 | an empty window |
| `ReplayWindows.ReplayWindow.Check` | packages/core/src/crypto/replay.ts:24-30 | true exactly for counters below the reserved one, inside the window and never accepted since the last reset |
| `ReplayWindows.ReplayWindow.Accept` | packages/core/src/crypto/replay.ts:13-22 | accepts exactly what check admits and remembers it |
| `ReplayWindows.ReplayWindow.Highest` | packages/core/src/crypto/replay.ts:32-35 | the largest accepted counter, or 0 |
| `ReplayWindows.ReplayWindow.ResetAll` | packages/core/src/crypto/replay.ts:37-40 | forgets everything |
| `Channels.FmpLink.Finalized` | packages/core/src/fmp/link.ts:193-201 | the link as the handshake leaves it |
| `Channels.FmpLink.EncryptOutgoing` | packages/core/src/fmp/link.ts:203-230 | one counter per attempt, even for a message that then cannot be encoded; refused when not established or exhausted |
| `Channels.FmpLink.DecryptIncoming` | packages/core/src/fmp/link.ts:236-260 | receiver index, window and tag are checked in order; the window moves exactly for a frame that opens, also if its text then does not decode, which is an error |
| `Channels.AtMostOnce` | packages/core/src/fmp/link.ts:203-260 | over a reordering, duplicating, forging network every delivery is of a sent frame and no frame is delivered twice |
| `Channels.CountersAreNeverReused` | packages/core/src/fmp/link.ts:203-230 | counters strictly increase and stay below the reserved value |
| `Channels.CounterCountsAttempts` | packages/core/src/fmp/link.ts:203-230 | in every run the next counter is the number of attempts to send so far, up to the reserved one |
| `Channels.SealedIsRead` | packages/core/src/fmp/link.ts:203-260 | a message is sealed exactly if a counter is left and it fits 65535 bytes; the other end reads exactly what was given to it, if that counter is new there |
| `Channels.ReadIsSent` | packages/core/src/fmp/link.ts:203-260 | in every run each message the application reads is the one given to the send that made the frame it came in |
| `Channels.ShortTextIsSeen` | packages/core/src/fmp/link.ts:236-260 | a frame that opens but does not decode is not delivered, yet its counter counts as seen |
| `Channels.DeliveredOnArrival` | packages/core/src/fmp/link.ts:236-260 | a sent frame is delivered on arrival exactly if it was not delivered before and its counter is inside the window |
| `Channels.ForgeryIsIgnored` | packages/core/src/fmp/link.ts:236-260 | a frame that was not sent changes nothing |
| `LearnedRoutes.SelectionConservesWeight` | packages/core/src/node/LearnedRouteTable.ts:79-119 | any selection leaves the sum of current weights unchanged, over all live routes and over the sendable ones |
| `LearnedRoutes.Fairness` | packages/core/src/node/LearnedRouteTable.ts:79-119 | from zero weights, n selections among k sendable routes leave each with n*weight - total*times, sum zero, chosen strictly within one above and k-1 below its share |
| `LearnedRoutes.TruncationKeepsBest` | packages/core/src/node/LearnedRouteTable.ts:142-160 | sorting and truncating keeps the best routes of the comparator and no next hop twice |
| `RouteReports.WeightIsPowerOfScore` | packages/core/src/node/LearnedRouteTable.ts:148-154 | a route weighs the 1.5th power of its score, held between 0.05 and 64, and at least 0.05; 512 is the weight of the score 64 |
| `RouteReports.WeightIsHeld` | packages/core/src/node/LearnedRouteTable.ts:148-166 | for any power function: that of the score held between 0.05 and 64, itself held between 0.05 and 512 |
| `RouteReports.WeightGrowsWithScore` | packages/core/src/node/LearnedRouteTable.ts:148-154 | a better score never weighs less |
| `RouteReports.SelectionOutcome` | packages/core/src/node/LearnedRouteTable.ts:79-119 | the sendable route with the greatest current weight plus weight is chosen, of equals the first in the order of score, last seen and next hop; it pays the total, every other sendable route keeps its sum, and the list is put in that order |
| `RouteReports.ReportsAreCounted` | packages/core/src/node/LearnedRouteTable.ts:27-77 | after any run of replies and failures both are counted, the score is one more per reply up to 64 and half per failure down to 0.05, and a failure takes positive credit away |
| `RouteReports.LastReplyDecides` | packages/core/src/node/LearnedRouteTable.ts:27-64 | times come from the last reply, the path MTU from the last one that brought one; failures touch neither |
| `RouteReports.RepliesRestore` | packages/core/src/node/LearnedRouteTable.ts:27-77 | whatever went before, 64 replies in a row bring a route to the best score |
| `RouteReports.LearningTouchesOneHop` | packages/core/src/node/LearnedRouteTable.ts:27-64 | learning changes the route to its next hop alone, or adds one with score 1 |
| `RouteReports.BestAreKept` | packages/core/src/node/LearnedRouteTable.ts:142-160 | truncation keeps routes in the order of score, last seen and next hop and drops none that comes before one it keeps |
| `RouteReports.LiveIs` | packages/core/src/node/LearnedRouteTable.ts:134-140 | a route is live exactly while it expires later than now |
| `LearnedRoutes.LearnedRouteTable.Learn` | packages/core/src/node/LearnedRouteTable.ts:27-64 | inserts or reinforces one route, with sorting and truncation; nothing for a route to itself or a maximum of zero |
| `LearnedRoutes.LearnedRouteTable.RecordFailure` | packages/core/src/node/LearnedRouteTable.ts:71-77 | halves the score above its floor and takes away positive credit of exactly that route |
| `LearnedRoutes.LearnedRouteTable.RetainLive` | packages/core/src/node/LearnedRouteTable.ts:134-140 | keeps exactly the unexpired routes, in order |
| `LearnedRoutes.LearnedRouteTable.SelectNextHop` | packages/core/src/node/LearnedRouteTable.ts:79-119 | answers with one smooth weighted round-robin selection among the live sendable routes, or nothing |
| `LearnedRoutes.LearnedRouteTable.PickRoute` | packages/core/src/node/LearnedRouteTable.ts:96-117 | the loop picks the heaviest sendable route after adding every weight, and charges it the total |
| `DirectTransport.FragmentRoundTrip` | packages/core/src/fsp/directTransport.ts:49-56 | the four little-endian header fields and the payload are read back as written |
| `WireLayouts.FragmentLayout` | packages/core/src/fsp/directTransport.ts:64-100 | exactly which packets are DFP1 fragments that ingest goes on with, and which field is where |
| `DirectTransport.SegmentRecord` | packages/core/src/fsp/directTransport.ts:23-59 | the errors in the order of the source, the record itself if it fits, otherwise its fragments |
| `DirectTransport.SegmentedExactlyIf` | packages/core/src/fsp/directTransport.ts:23-59 | a record longer than the path MTU is cut exactly if it is an Established frame with the direct-transport flag, of at most 73728 bytes, the MTU is above 20, and 128 pieces of MTU - 20 bytes hold it; shorter ones go as they are |
| `DirectTransport.DirectFramesAreSegmented` | packages/core/src/fsp/directTransport.ts:23-59 | the same for the encoding of any frame |
| `DirectTransport.Cut` | packages/core/src/fsp/directTransport.ts:45-58 | the loop puts the pieces of the record into fragments 0, 1, ... in order |
| `DirectTransport.PiecesAreCounted` | packages/core/src/fsp/directTransport.ts:38-42 | the number of pieces is the rounded-up quotient the header announces |
| `DirectTransport.SegmentedIsFragmentable` | packages/core/src/fsp/directTransport.ts:23-43 | what passes the checks has at least two and at most 128 pieces and a 64-bit record id |
| `DirectTransport.FragmentsAreAccepted` | packages/core/src/fsp/directTransport.ts:64-82 | every fragment fits the path MTU, is recognised by its magic and passes the checks of ingest as what it is |
| `Reassembly.IngestKeepsInvariant` | packages/core/src/fsp/directTransport.ts:64-125 | always at most 512 records, received bytes equal to the stored parts and at most the announced length; an emitted record has that length |
| `Reassembly.ReassemblyUndoesSegmentation` | packages/core/src/fsp/directTransport.ts:64-125 | under any order, repetition and interleaving with other records, within the TTL and without eviction, a fragment yields nothing unless it brings the last missing index, and then exactly the original record |
| `Reassembly.EveryIndexBringsTheRecord` | packages/core/src/fsp/directTransport.ts:64-125 | once every index has arrived the record has come out |
| `Reassembly.SegmentedIsSent` | packages/core/src/fsp/directTransport.ts:23-59 | what segmentation puts out is such a record |
| `Reassembly.DirectFrameComesOut` | packages/core/src/fsp/directTransport.ts:23-125 | end to end: such a frame is segmented, and once all its fragments have arrived in any order it has come out |
| `Reassembly.PacketOutcome` | packages/core/src/fsp/directTransport.ts:64-125 | what each packet does to its record: it comes out exactly if the parts are then all there with the announced length, too many bytes drop it, otherwise it waits on with its age, at most two seconds |
| `Reassembly.OtherRecordsStay` | packages/core/src/fsp/directTransport.ts:64-143 | and to every other: those up to two seconds old stay, but for the one given up when a new record finds 512 |
| `Reassembly.DirectFspTransportReassembler.constructor` | packages/core/src/fsp/directTransport.ts:61-62 | no records |
| `Reassembly.DirectFspTransportReassembler.Ingest` | packages/core/src/fsp/directTransport.ts:64-125 | an error for a packet without the magic; otherwise exactly Ingested, giving up an oldest record only when a new one needs room among 512 |
| `Reassembly.DirectFspTransportReassembler.Store` | packages/core/src/fsp/directTransport.ts:101-125 | first copy of an index wins, overflow drops the record, completion joins the parts |
| `Reassembly.DirectFspTransportReassembler.PruneExpired` | packages/core/src/fsp/directTransport.ts:131-135 | drops exactly the records older than the TTL |
| `Reassembly.DirectFspTransportReassembler.FindOldest` | packages/core/src/fsp/directTransport.ts:139-141 | no record was created earlier than the one found |
| `Reassembly.DirectFspTransportReassembler.ReserveEntry` | packages/core/src/fsp/directTransport.ts:137-143 | makes room only when there are 512 records |
| `NoiseStates.EqualStatesAgree` | packages/core/src/noise/symmetricState.ts:76-86 | what one state encrypts, an equal state decrypts, and the two end equal, the plaintext longer by a tag under a key |
| `NoiseReads.CipherOutcome` | packages/core/src/noise/cipherState.ts:34-48 | texts pass through without a key; with one each sealing or opening under the associated data takes the next of 2^64 - 1 nonces |
| `NoiseStates.LawsAreConsistent` | packages/core/src/noise/handshake.ts:272-323 | the laws assumed of the primitives can be met |
| `NoiseStates.CipherState.EncryptWithAd` | packages/core/src/noise/cipherState.ts:34-40 | passes through without a key, refuses at the last nonce, otherwise seals under the next nonce with the associated data |
| `NoiseStates.CipherState.DecryptWithAd` | packages/core/src/noise/cipherState.ts:42-48 | a failed opening does not move the nonce |
| `NoiseStates.CipherState.Clone` | packages/core/src/noise/cipherState.ts:26-31 | an independent equal copy |
| `NoiseStates.SymmetricState.constructor` | packages/core/src/noise/symmetricState.ts:22-33 | h and ck from the padded or hashed protocol name, no key |
| `NoiseStates.SymmetricState.Clone` | packages/core/src/noise/symmetricState.ts:35-41 | an independent equal copy, cipher included |
| `NoiseStates.SymmetricState.MixHashWith` | packages/core/src/noise/symmetricState.ts:44-46 | h becomes the hash of h and the data |
| `NoiseStates.SymmetricState.MixKeyWith` | packages/core/src/noise/symmetricState.ts:49-53 | ck and a fresh cipher from HKDF, nonce zero |
| `NoiseStates.SymmetricState.EncryptThenHash` | packages/core/src/noise/symmetricState.ts:76-80 | encrypts and mixes in the ciphertext |
| `NoiseStates.SymmetricState.DecryptThenHash` | packages/core/src/noise/symmetricState.ts:82-86 | decrypts and mixes in the ciphertext, nothing on failure |
| `NoiseHandshakes.HandshakeAgrees` | packages/core/src/noise/handshake.ts:123-248 | any honest IK or XK run with any number of rejected messages delivers its payloads intact and, when finished, has equal hash and chaining key, crossed transport keys and the initiator's key known, also when the initiator holds the responder's key under the other parity |
| `NoiseHandshakes.FailedReadChangesNothing` | packages/core/src/noise/handshake.ts:171-184 | a read that fails leaves the whole state unchanged |
| `NoiseHandshakes.StartInStep` | packages/core/src/noise/handshake.ts:89-115 | pre-message normalisation: both sides start with equal states whichever parity the initiator knows |
| `NoiseHandshakes.DhAgrees` | packages/core/src/noise/handshake.ts:272-323 | each Diffie-Hellman token gives both sides the same secret |
| `NoiseHandshakes.OperandsOfSe` | packages/core/src/noise/handshake.ts:291-316 | in IK `se` mixes the operands of `es` again; in XK it is initiator static with responder ephemeral on both sides |
| `NoiseHandshakes.MessageInStep` | packages/core/src/noise/handshake.ts:123-184 | a message written in turn is read as exactly its payload and brings both sides to the next step |
| `NoiseHandshakes.MessageLength` | packages/core/src/noise/handshake.ts:123-164 | with an 8-byte payload the messages are 106 and 57 bytes (IK), 57 and 73 (XK); an empty payload gets no tag, so the first XK message is 33 |
| `NoiseSecrets.HandshakeChain` | packages/core/src/noise/handshake.ts:123-323 | after any finished run of two honest parties both chaining keys are the hash of the protocol name stirred, in this order, with DH(e_i, s_r), DH(e_i, e_r), DH(s_i, e_r) for XK and DH(e_i, s_r), DH(s_i, s_r), DH(e_i, e_r), DH(e_i, s_r) for IK; the transport keys are drawn from it and crossed |
| `NoiseSecrets.StartIs` | packages/core/src/noise/handshake.ts:89-115 | hash and chaining key before the first message, under the literal protocol names |
| `NoiseSecrets.IkFirstIs` | packages/core/src/noise/handshake.ts:123-164 | the first IK message and what its writer is left with, straight down |
| `NoiseSecrets.IkSecondIs` | packages/core/src/noise/handshake.ts:123-164 | so the second, with the secret of es once more |
| `NoiseSecrets.XkFirstIs` | packages/core/src/noise/handshake.ts:123-164 | so the first XK message |
| `NoiseSecrets.XkSecondIs` | packages/core/src/noise/handshake.ts:123-164 | so the second |
| `NoiseSecrets.XkThirdIs` | packages/core/src/noise/handshake.ts:123-164 | so the third, sealed static key and then its secret with the responder's ephemeral one |
| `NoiseReads.IkFirstReadIs` | packages/core/src/noise/handshake.ts:186-240 | exactly which first IK messages the responder accepts and what it takes from them; all others leave no trace |
| `NoiseReads.IkSecondReadIs` | packages/core/src/noise/handshake.ts:186-240 | so for the second and the initiator |
| `NoiseReads.XkFirstReadIs` | packages/core/src/noise/handshake.ts:186-240 | so for the first XK message |
| `NoiseReads.XkSecondReadIs` | packages/core/src/noise/handshake.ts:186-240 | so for the second |
| `NoiseReads.XkThirdReadIs` | packages/core/src/noise/handshake.ts:186-240 | so for the third; a static key of another length than 33 bytes is refused |
| `NoiseReads.OutOfTurn` | packages/core/src/noise/handshake.ts:254-270 | who writes and who reads at which step; out of turn nothing happens |
| `NoiseHandshakes.NoiseHandshake.Create` | packages/core/src/noise/handshake.ts:89-115 | an initiator without the responder's key is an error; otherwise the normalised pre-message is mixed in |
| `NoiseHandshakes.NoiseHandshake.Write` | packages/core/src/noise/handshake.ts:123-164 | tokens in order, payload only if there is one, errors out of turn |
| `NoiseHandshakes.NoiseHandshake.Read` | packages/core/src/noise/handshake.ts:171-184 | saves, reads in place and restores on failure: a failed read leaves the state as it was |
| `NoiseHandshakes.NoiseHandshake.ReadInto` | packages/core/src/noise/handshake.ts:186-240 | the token loop of a read, step advanced only at the end |
| `NoiseHandshakes.NoiseHandshake.MixDhToken` | packages/core/src/noise/handshake.ts:272-323 | the operands by token, role and pattern; missing keys, bad keys and short secrets are errors |
| `NoiseHandshakes.NoiseHandshake.TransportKeys` | packages/core/src/noise/handshake.ts:243-247 | the first key is the initiator's sending key |
| `OriginLookups.CreateKeepsAgreement` | packages/core/src/node/OriginLookupRegistry.ts:68-104 | creating keeps the two indexes in agreement exactly if the target had no lookup; a failed create changes nothing |
| `OriginLookups.AttemptOutcome` | packages/core/src/node/OriginLookupRegistry.ts:32-104 | when a lookup or a retry begins, with which id, and that nothing else changes |
| `OriginLookups.RetryKeepsAgreement` | packages/core/src/node/OriginLookupRegistry.ts:32-66 | a further request id keeps them in agreement |
| `OriginLookups.RemoveLeavesNoAlias` | packages/core/src/node/OriginLookupRegistry.ts:138-146 | ending a lookup removes exactly the ids that lead to it, and no other lookup |
| `OriginLookups.IndexesAgree` | packages/core/src/node/OriginLookupRegistry.ts:12-146 | in every run guarded as the callers guard it, byRequest is the disjoint union of the live lookups' id sets and the capacity holds |
| `OriginLookups.AllocationFails` | packages/core/src/node/OriginLookupRegistry.ts:124-136 | the id allocated is the first free one of eight drawn; allocation fails exactly if a short answer comes before it or there is none |
| `OriginLookups.OriginLookupRegistry.AllocateRequestId` | packages/core/src/node/OriginLookupRegistry.ts:124-136 | the first free id among eight draws |
| `OriginLookups.OriginLookupRegistry.Begin` | packages/core/src/node/OriginLookupRegistry.ts:68-104 | create, and the exact condition under which the indexes still agree |
| `OriginLookups.OriginLookupRegistry.Renew` | packages/core/src/node/OriginLookupRegistry.ts:38-45 | the retry step: one more id, earlier ones kept |
| `OriginLookups.OriginLookupRegistry.End` | packages/core/src/node/OriginLookupRegistry.ts:138-146 | deletes the lookup and each of its ids, only if it is still the live one |
| `OriginLookups.OriginLookupRegistry.Stop` | packages/core/src/node/OriginLookupRegistry.ts:118-122 | both indexes end empty |
| `OriginLookups.AttemptTimes` | packages/core/src/node/OriginLookupRegistry.ts:32-66 | at most seven attempts start before the 5000 ms deadline, each 250, 500 and then 1000 ms after the send before it; with sends that take no time exactly seven, at 0, 250, 750, 1750, 2750, 3750 and 4750 ms |
| `LookupFlood.ReversePathsFormATree` | packages/core/src/node/FipsRouting.ts:549-590 | from every node that forwarded a request, remembered peers lead to the origin in at most eight hops and through no node twice, as long as no entry of it was removed |
| `LookupFlood.StepKeepsInvariant` | packages/core/src/node/FipsRouting.ts:519-645 | every step keeps: a request on a link was sent in full by the origin or under its sender's entry, and every entry's peer sent it with the TTL one higher |
| `LookupSends.EachHopOnce` | packages/core/src/node/FipsRouting.ts:549-645 | in every run of requests, resolutions, replays, responses and ended sends at one node, in which no request had to choose between two links to one neighbour and no entry expired, was given up or was answered, the request is sent to every next hop successfully at most once, also after an entry that its failed sends deleted was made again |
| `LookupSends.EachHopOnceExactlyIf` | packages/core/src/node/FipsRouting.ts:555-613 | in every state such a run reaches, a further request can be sent to a next hop twice exactly if no route is known and two of the first sixteen fallback links lead to one node it was not sent to before |
| `OriginSends.OriginHopOnceExactlyIf` | packages/core/src/node/FipsRouting.ts:720-748 | the origin, whose attempts each have a request id of their own, sends no request to one node twice whatever becomes of its sends, exactly if in no attempt two of the first sixteen eligible links lead to one node |
| `OriginSends.OriginBatchIs` | packages/core/src/node/FipsRouting.ts:720-731 | an attempt goes over the first sixteen links that are established, wide enough and not excluded, and outside the reply-learned mode of the tree or the default route |
| `LookupSends.RunKeepsExact` | packages/core/src/node/FipsRouting.ts:549-645 | the remembered hops are exactly those a send to which succeeded or is under way, each once |
| `LookupSends.OutcomeKeepsExact` | packages/core/src/node/FipsRouting.ts:599-613 | so after a batch has ended: failed hops are forgotten, with the entry if none is left |
| `LookupSends.NeighbourReachedTwice` | packages/core/src/node/FipsRouting.ts:555-604 | a node with no route and two links to one neighbour sends to it twice with success |
| `LookupRequests.BatchIsDistinctExactlyIf` | packages/core/src/node/FipsRouting.ts:555-592 | the nodes of a batch are different exactly if a route was known or no two of the first sixteen fallback links lead to one node not yet remembered |
| `LookupRequests.FallbackReachesANeighbourTwice` | packages/core/src/node/FipsRouting.ts:555-570 | the handler makes such a batch when there is no route and a neighbour has two established links |
| `LookupRequests.RequestRemembers` | packages/core/src/node/FipsRouting.ts:549-592 | while an entry stays, a request adds exactly the nodes of its batch to those remembered, and none of them was there before |
| `LookupRequests.RequestKeepsValid` | packages/core/src/node/FipsRouting.ts:519-592 | the table stays within 256 entries, its insertion order lists them once each, and each answers for its own key |
| `LookupRequests.ResponseKeepsValid` | packages/core/src/node/FipsRouting.ts:652-680 | responses keep the same |
| `LookupRequests.ResponseGoesBackOnce` | packages/core/src/node/FipsRouting.ts:652-680 | a response goes to the remembered peer only, promises no more than any link carries and at least what was asked, and uses the entry up |
| `LookupOutcomes.RequestOutcome` | packages/core/src/node/FipsRouting.ts:519-592 | for every request: dropped, answered with the capacity of its link, or forwarded, to exactly which links, and what is remembered of it for 30 seconds |
| `LookupOutcomes.OtherEntriesStay` | packages/core/src/node/FipsRouting.ts:519-592 | no other entry changes, but for the oldest of 256 when the request is new |
| `LookupOutcomes.ResponseOutcome` | packages/core/src/node/FipsRouting.ts:652-680 | a response goes back exactly if the request is remembered, came over another link and is content with the least of the two capacities and the path MTU so far, which it then promises |
| `LookupOutcomes.ReplayOutcome` | packages/core/src/node/FipsRouting.ts:310-338 | a node that connects is sent exactly the live requests for it that came from elsewhere, have not gone to it and are content with the link, and they are marked |
| `LookupOutcomes.SettlingOutcome` | packages/core/src/node/FipsRouting.ts:594-613 | what a batch could not be sent to is forgotten, and the entry with it if nothing was sent and nothing is remembered |
| `LookupOutcomes.LaterHopOutcome` | packages/core/src/node/FipsRouting.ts:617-645 | a hop found later is used exactly if the request is remembered and has not gone there, and a failed send undoes it |
| `LookupOutcomes.LookupReturns` | packages/core/src/node/FipsRouting.ts:519-680 | a whole lookup through a line of nodes returns exactly if its hops suffice and no link on the way is narrower than asked, and brings the capacity of the narrowest |
| `LookupRequests.LookupForwarder.HandleLookupRequest` | packages/core/src/node/FipsRouting.ts:519-592 | the branches of a request up to its sends, in order |
| `LookupRequests.LookupForwarder.SettleSends` | packages/core/src/node/FipsRouting.ts:599-613 | when a batch has ended its failed hops are forgotten; if all failed and nothing else is remembered the entry goes |
| `LookupRequests.LookupForwarder.HandleSendFailure` | packages/core/src/node/FipsRouting.ts:630-645 | a failed send of a later hop is forgotten, so that it may be tried again |
| `LookupRequests.LookupForwarder.ForwardLookupResponse` | packages/core/src/node/FipsRouting.ts:652-680 | the response path, entry deleted before sending |
| `LookupRequests.LookupForwarder.ReplayPendingLookups` | packages/core/src/node/FipsRouting.ts:310-338 | exactly the pending requests for the peer that just connected go to it, each once and marked; nothing happens if the link is not up or not the known one |
| `LookupRequests.LookupForwarder.PruneReversePaths` | packages/core/src/node/FipsRouting.ts:819-823 | drops exactly the expired entries |
| `LookupRequests.LookupForwarder.ReserveReversePath` | packages/core/src/node/FipsRouting.ts:825-829 | gives up the entry inserted first when there are 256 |
| `BloomFilters.BloomFilter.WithParams` | packages/core/src/bloom/index.ts:40-48 | refuses other than positive multiples of 8 bits and 1 to 255 hashes; otherwise an empty filter |
| `BloomFilters.BloomFilter.InsertBytes` | packages/core/src/bloom/index.ts:62-66 | adds exactly the probed bit indices |
| `BloomFilters.BloomFilter.ContainsBytes` | packages/core/src/bloom/index.ts:69-74 | true exactly if all probed indices are set |
| `BloomFilters.BloomFilter.Merge` | packages/core/src/bloom/index.ts:77-84 | the union of the index sets, also with itself; an error exactly on a size mismatch |
| `BloomFilters.BloomFilter.Union` | packages/core/src/bloom/index.ts:87-93 | a fresh filter with the union, the other filter cut or padded to this size since the sizes are not compared |
| `BloomFilters.BloomFilter.Clear` | packages/core/src/bloom/index.ts:95-97 | no index is set |
| `BloomFilters.BloomFilter.CountOnes` | packages/core/src/bloom/index.ts:99-109 | the bit-clearing loop counts the indices |
| `BloomFilters.BloomFilter.SetBit` | packages/core/src/bloom/index.ts:142-144 | sets exactly one index |
| `BloomFilters.BloomFilter.GetBit` | packages/core/src/bloom/index.ts:146-148 | reads one index |
| `BloomFilters.KeysAreKeptExactlyIf` | packages/core/src/bloom/index.ts:62-93 | however filters are made, filled, merged and united, each of them finds all its keys whatever these are, exactly if every join was safe: equal sizes, and the receiver probes no more often or the size is a power of two that the other's probes cover |
| `BloomFilters.ProbedExactlyIf` | packages/core/src/bloom/index.ts:133-140 | the bits probed for a key: first word plus k times the second in 64 bits, modulo the size |
| `BloomFilters.MemberIsBit` | packages/core/src/bloom/index.ts:142-148 | index i is bit i mod 8, counted from the least significant, of byte i / 8 |
| `BloomFilters.KeysCarryOverExactlyIf` | packages/core/src/bloom/index.ts:77-93 | the same for one join, over all keys, from the two sizes and hash counts alone |
| `BloomFilters.NoFalseNegatives` | packages/core/src/bloom/index.ts:62-93 | after any inserts and safe joins no inserted key is reported absent |
| `BloomFilters.SomeKeyIsLost` | packages/core/src/bloom/index.ts:77-93 | with an unsafe join some contents lose a key |
| `BloomFilters.MergeLosesAKey` | packages/core/src/bloom/index.ts:77-84 | an inserted key that a merge makes absent |
| `BloomFilters.UnionLosesAKey` | packages/core/src/bloom/index.ts:87-93 | an inserted key that a union with a filter of another size makes absent |
| `Powers.DividesPowerExactlyIf` | packages/core/src/bloom/index.ts:137-140 | the divisors of a power of two are the smaller powers of two; for 2^64, the modulus of the probe arithmetic, this decides which sizes repeat their probes |
| `RecentPeers.PeersAreTop` | packages/core/src/recentPeers.ts:89-142 | after any observations the peers are the top 256 by latest time, then descending npub, of the per-peer maxima |
| `RecentPeers.EndpointsAreTop` | packages/core/src/recentPeers.ts:104-136 | the endpoints of a peer never cut out are the top 4 by latest time, then address, of its per-address maxima |
| `RecentPeers.PeersAreOrderIndependent` | packages/core/src/recentPeers.ts:89-142 | peers and times depend only on the set of observations |
| `RecentPeers.EndpointsAreOrderIndependent` | packages/core/src/recentPeers.ts:104-136 | so do the endpoints of a peer that neither order cuts out |
| `RecentPeers.ObserveReparses` | packages/core/src/recentPeers.ts:89-142 | what observing returns parses again |
| `RecentPeers.PruneReparses` | packages/core/src/recentPeers.ts:144-171 | what pruning returns parses again |
| `RecentPeers.PrunedExactly` | packages/core/src/recentPeers.ts:144-171 | when pruning fails, and otherwise that exactly the peers and endpoints seen since the cutoff remain, in order |
| `RecentPeers.ObservedExactly` | packages/core/src/recentPeers.ts:48-142 | when observing fails, and what a cache that parses looks like: at most 256 peers with at most four endpoints each |
| `RecentPeers.PruneRecentPeers` | packages/core/src/recentPeers.ts:144-171 | the loop keeps exactly the peers and endpoints at or after the cutoff, ranked and capped |
| `TopK.ObserveKeepsTop` | packages/core/src/recentPeers.ts:111-136 | observing a key, even one cut earlier at a later time, keeps the list the first k of the latest times |
| `TopK.TopIsUnique` | packages/core/src/recentPeers.ts:225-252 | there is one such list |
| `BinaryCodec.IntegerRoundTrip` | packages/core/src/codec/binary.ts:37-50 | reading a little-endian integer gives back what was written |
| `BinaryCodec.BytesRoundTrip` | packages/core/src/codec/binary.ts:107-115 | writing what was read gives back the bytes |
| `WireLayouts.LittleEndianIs` | packages/core/src/codec/binary.ts:82-115 | integers of 1, 2, 4 and 8 bytes in terms of their bytes, both ways |
| `BinaryCodec.BinaryWriter.PutBytes` | packages/core/src/codec/binary.ts:52-55 | appends a chunk |
| `BinaryCodec.BinaryWriter.PutInteger` | packages/core/src/codec/binary.ts:5-50 | appends the integer exactly if it is in range, otherwise a RangeError and no change |
| `BinaryCodec.BinaryWriter.ToBytes` | packages/core/src/codec/binary.ts:61-69 | the chunks in order |
| `BinaryCodec.BinaryReader.GetBytes` | packages/core/src/codec/binary.ts:117-122 | the next bytes, or a RangeError that leaves the position |
| `BinaryCodec.BinaryReader.GetInteger` | packages/core/src/codec/binary.ts:82-115 | the next integer, or a RangeError |
| `BinaryCodec.BinaryReader.GetRest` | packages/core/src/codec/binary.ts:124-128 | everything left |
| `DiscoveryCodec.LookupRequestRoundTrip` | packages/core/src/protocol/discovery.ts:21-44 | decoding undoes encoding for every valid request |
| `DiscoveryCodec.LookupRequestIsCanonical` | packages/core/src/protocol/discovery.ts:21-33 | every accepted byte string is the encoding of what it decodes to |
| `DiscoveryCodec.EncodeLookupRequest` | packages/core/src/protocol/discovery.ts:35-44 | the writer succeeds exactly on encodable requests |
| `DiscoveryCodec.DecodeLookupRequest` | packages/core/src/protocol/discovery.ts:21-33 | the reader accepts exactly what the parser accepts |
| `DiscoveryCodec.LookupResponseRoundTrip` | packages/core/src/protocol/discovery.ts:46-69 | decoding undoes encoding for every valid response |
| `DiscoveryCodec.LookupResponseIsCanonical` | packages/core/src/protocol/discovery.ts:46-57 | every accepted byte string is the encoding of what it decodes to |
| `DiscoveryCodec.EncodeLookupResponse` | packages/core/src/protocol/discovery.ts:59-69 | the writer succeeds exactly on encodable responses |
| `DiscoveryCodec.DecodeLookupResponse` | packages/core/src/protocol/discovery.ts:46-57 | the reader accepts exactly what the parser accepts |
| `WireLayouts.LookupRequestLayout` | packages/core/src/protocol/discovery.ts:21-33 | exactly which bytes are a LookupRequest, and which field is where |
| `WireLayouts.LookupResponseLayout` | packages/core/src/protocol/discovery.ts:46-57 | so for a LookupResponse |
| `CoordLists.WriteCoords` | packages/core/src/protocol/discovery.ts:93-102 | count and addresses, exactly for lists of the allowed count of 16-byte addresses |
| `CoordLists.ReadCoords` | packages/core/src/protocol/discovery.ts:83-91 | reads back such a list or fails |
| `FspWire.EstablishedRoundTrip` | packages/core/src/fsp/wire.ts:163-217 | decoding undoes encoding, absent and empty coordinate lists being the same |
| `FspWire.EstablishedIsCanonical` | packages/core/src/fsp/wire.ts:180-217 | every accepted frame is the encoding of what it decodes to |
| `FspWire.EncodeEstablished` | packages/core/src/fsp/wire.ts:163-178 | the writer succeeds exactly on encodable frames |
| `FspWire.DecodeEstablished` | packages/core/src/fsp/wire.ts:180-217 | the reader accepts exactly what the parser accepts |
| `WireLayouts.EstablishedLayout` | packages/core/src/fsp/wire.ts:180-217 | exactly which bytes are an Established frame, and which field is where, with and without coordinate lists |

## Left out

- FspRuns.NoSplitBrain: the network carries handshake frames as they were sent (lost, repeated, reordered); altered Setups, timeouts, a second session of a node and a peer that stops being admitted are outside these runs. Records may be injected freely.
- FspRuns.EveryStartComesUp: the same network; that the named frames are delivered is what progress rests on.
- FspSessions.FspSessionManager.HandleFromPeer: sessions are held by value, so aliasing between a session and its FspSession objects is not captured; draining early records is one step although the source awaits between them, and the invariant holds after each record separately.
- FspSessions.FspSessionManager.ReceiveEstablished: the body is handed on as a whole; traversal offers, receiver reports and service handlers, which look into it, are not modelled.
- FspHandshakes.FspSession.EncryptMessage: the timestamp and the route coordinates that a record may carry are not modelled.
- FspRestarts.RestartsAlternate: the starter closes its session without a word to the other node, which starts nothing itself and stays admitted.
- FspDeliveries.DeliveredOnce: own ephemeral keys do not repeat, and no two records of a run have equal bodies, by which they are told apart; nothing the model does depends on a body.
- FspSessions.FspSessionManager.EnsureSession: only the state part; route resolution, retransmission and the 15 s setup timer are not modelled, nor are recovery of missing sessions, stop, closePeerSessions, services, reports and traversal answers.
- Reassembly.DirectFspTransportReassembler.Ingest: among records of the same age any may be given up, where the source takes the first in Map order.
- Reassembly.DirectFspTransportReassembler.FindOldest: the same.
- Reassembly.DirectFspTransportReassembler.ReserveEntry: the same.
- LookupFlood.ReversePathsFormATree: requires that no entry of this request is removed, by expiry, for room or by a response, and that messages name their true sender, which the authenticated link provides.
- LookupRequests.LookupForwarder.ForwardLookupResponse: caching the target's coordinates and learning the route are not modelled.
- LookupRequests.LookupForwarder.ReplayPendingLookups: up to the sends; a send that then fails is HandleSendFailure.
- LookupSends.EachHopOnce: requires that no entry of the request is removed by expiry, for room or by a response.
- LookupRequests.LookupForwarder.HandleLookupRequest: the routing tables' choice of next hop and the transport resolution are parameters, and proofs on responses are not modelled.
- TreeRecovery.Recovery: synchronous rounds on the graph that is left.
- TreeAnnouncements.AsynchronousConvergence: every link delivers in order and loses nothing, links do not change during the run, and strict clients, which do not announce, are not nodes of the graph.
- TreeNetwork.Convergence: synchronous rounds on a static graph; TreeAnnouncements.AsynchronousConvergence drops the rounds, changing links are not modelled.
- NoiseHandshakes.HandshakeAgrees: a rejected message is any message the receiver refuses; that forgeries are refused is a property of the AEAD and not claimed.
- LookupOutcomes.LookupReturns: each node's table when the response comes is any that still holds the request's entry; loss on a link and what keeps an entry are not part of it.
- The accessors LearnedRouteTable.pathMtu, has and clear, and TreeState.isTreePeer.
- Noise rekey and mixKeyAndHash, which are never called.
- RecentPeers.EndpointsAreTop: cached addresses are canonical; parsing of IPv4 and IPv6 text and npub decoding are not modelled.
- RecentPeers.EndpointsAreOrderIndependent: the same.
- RecentPeers.ObserveReparses: of parsing, order, bounds and times; the shape checks on JSON values and addresses are not modelled.
- RecentPeers.PruneReparses: the same.
- OriginLookups.AttemptTimes: one retry loop by itself; promises and timers are the times it computes.
- LearnedRoutes.Fairness: reals instead of floating point, and scores that stay fixed during the run.
- Channels.FmpLink.Finalized: the link after its handshake; the exact replay of Msg1 and Msg2 has the form proved for the FSP handshake and is not repeated.
- Bloom filters of 2^32 bits and more, whose indices the shift operator cuts.
- secp256k1, Schnorr signatures, SHA-256, HKDF and ChaCha20-Poly1305 internals.
- SessionSetup, SessionAck, FspHandshake and FilterAnnounce codecs, whose decoders ignore trailing bytes.
- FipsNode and the packet processor, transports, relays, stores, the demo and the Rust bridge: input and output around this logic.
- MMP receiver reports, loggers and configuration checks.
