# xray-mesh: a verified model

xray-mesh joins hosts into a virtual IPv4 network. A coordinator leases addresses and session
tokens, relays packets over UDP and hands out tickets with which two peers may probe each other
and then exchange sealed packets directly. A client can also send all its other traffic through a
tunnel, whose routes are the IPv4 space minus a few protected prefixes. This project models these
four parts and proves what they promise over every input and every run.

Where the Go code updates an object in place, the model has a class with the same fields. Its
methods are proved against a function on values (the function has the same name with `In` added,
or is named in the method's contract), and the whole-run theorems are about those functions: a run
is a sequence of calls with the states between them.

| files | what they model |
|---|---|
| `Ipv4Blocks`, `FullTunnel` | CIDR blocks (section 3.1 of RFC 4632) and the full-tunnel route generator |
| `Allocator`, `Registry`, `LeaseRuns` | address pool, lease registry, runs of registrations, heartbeats and sweeps |
| `Tickets` | the coordinator's ticket manager and its runs |
| `Packet`, `RelayFrame`, `Discovery`, `Relay`, `RelayAnswers` | IPv4 fields, relay frames, discovery rate limit and deduplication, the relay |
| `Crypto`, `Probe`, `DirectPayload`, `ReplayCache`, `Selector` | probe and payload frames, replay cache, path selector |
| `Client`, `ClientAnswers`, `PayloadService`, `ClientRuns` | the client's P2P runtime, what it does with every reply and datagram, and its runs |
| `ProbeAgreement`, `PayloadAgreement`, `RestartReplay`, `TicketSystem` | several nodes and a hostile network; all clients and the coordinator |
| `Coordinator`, `CoordinatorRuns`, `CoordinatorRaces` | the HTTP handlers, the lease sweeper, and their interleavings |
| `GoStrings`, `Sorting`, `Buffers`, `FiniteSets` | byte strings, time, sorting, big-endian fields, sizes of sets |

## What is assumed

- SHA-256, HMAC and AES-GCM are parameters (`Crypto.Primitives`). `Ideal` says: SHA-256 is injective
  on 32-byte keys, digests have 32 bytes, and AEAD opening undoes sealing and accepts nothing else
  (section 2 of RFC 5116). `IdealIsSatisfiable` shows this is not contradictory. In `ProbeAgreement`
  HMAC (section 2 of RFC 2104) is ideal in one more way, `Unforgeable`: under the key of a ticket
  between two honest nodes, a MAC that verifies was made by one of them earlier. In
  `PayloadAgreement` so is AES-GCM, `SealAuthentic`: what opens was sealed by one of them earlier, with
  the same nonce and additional data.
- Time is an integer number of nanoseconds, 0 being Go's zero time, and does not run backwards within
  a run. The discovery bucket uses real seconds and real tokens.
- Tokens and nonces come from the caller: fresh over the whole run where a theorem says so, and for
  tokens possibly missing, which is the failure of the random source.
- Address parsing (`ParseAddrPort`), name resolution and socket writes are verdicts of the
  environment, given as parameters.
- Each exported method, each HTTP handler and the handling of each datagram is one atomic step; the
  sweeper is many, one for each lock it takes. The code takes the locks of the registry, the relay's
  endpoints, the relay's discovery state and the ticket manager one after the other, so two handlers
  are not atomic with respect to the sweeper: a datagram is authenticated, then bound, then guarded, and
  a ticket request is authenticated, then looked up, then issued. `CoordinatorRaces` cuts both at every
  lock and shows over all runs exactly what is left behind: what is bound, guarded or issued after the
  node's lease has been cleaned up.

## Where the code and its documents differ

The README's roadmap lists leases as future work, and `docs/live-p2p-probes.md` says that payload never
goes direct and that only an ack marks a path healthy. The code has leases, sends direct payload,
and marks a path healthy on an accepted direct payload too (`cmd/client/direct_runtime.go:99`). The
model follows the code. `docs/peer-leases.md` calls a quick client restart safe; that holds of the lease
(`LiveNodeKeepsIdentity`), but a restart also forgets which datagrams were delivered (`RestartReplays`).

## Properties that hold only on a condition

- A key of a live ticket passes the replay cache twice if and only if the ticket has no expiry
  (`AcceptsTwiceIffZeroExpiry`); the coordinator's tickets always have one. The cache is in memory, so
  a restart of the process forgets it: two deliveries of one datagram at a node need a restart between
  them (`TwoDeliveriesNeedRestart`), and with one they happen (`RestartReplays`).
- The node fields of the MAC input and of the AEAD's additional data can be read in one way if and only
  if the node IDs hold no NUL (`MacInputUnambiguousIff`, `AadUnambiguousIff`); among well-formed frames
  the exact condition is `MacInputNamesFrameIff`. The registry accepts IDs with NULs. Probe/ack agreement
  does not depend on it, because one ticket and the frame's kind fix both nodes. Nor does agreement on
  payloads: where the two directions of a pair have one additional data (`AadReflectsIff`,
  `SomeIDsReflect`) the encoding alone accepts a reflected seal (`ReflectedSealOpens`), but a node never
  seals a packet addressed to itself and delivers no other (`SealNotToSelf`).
- The coordinator itself allows several live tickets for one pair: an issue keeps the property if and
  only if the pair has no live ticket yet (`IssueKeepsOneLiveIff`). That there is one in every run rests
  on how clients fetch before they issue.
- Endpoints, discovery state and tickets name leased nodes only, between sweeps, if and only if nothing
  still there was bound, guarded or issued late (`CleanIffNothingLate`, see above); `RaceLeavesEndpoint`
  and `RaceLeavesDiscovery` are runs in which something was.

## Model

| member | source | states |
|---|---|---|
| `Ipv4Blocks.OrSetsUpperHalf` | `internal/xray/tun_profile.go:191-203` | OR-ing bit 31-bits into a masked address equals adding it, and gives the start of the upper half |
| `Ipv4Blocks.HalvesSplit` | `internal/xray/tun_profile.go:191-203` | the two halves are masked, disjoint and together hold exactly the block's addresses |
| `FullTunnel.SubtractMembers` | `internal/xray/tun_profile.go:184-206` | the recursion returns exactly the maximal blocks of base minus cut, described without recursion |
| `FullTunnel.DeadBranch` | `internal/xray/tun_profile.go:191-193` | at 32 bits a block that overlaps the cut lies in it, so the `Bits() >= 32` branch is never taken |
| `FullTunnel.SubtractKeepsCanonical` | `internal/xray/tun_profile.go:147-157` | one cut turns the canonical cover of a set into the canonical cover of the set minus the cut |
| `FullTunnel.SubtractFromEach` | `internal/xray/tun_profile.go:152-156` | the inner loop replaces every route by its remainder, in order |
| `FullTunnel.IPv4RoutesExcluding` | `internal/xray/tun_profile.go:141-167` | fails exactly on an invalid prefix; otherwise returns, in address order, exactly the maximal aligned blocks of the unprotected space |
| `FullTunnel.SortLeavesRoutes` | `internal/xray/tun_profile.go:158-165` | the final sort is the identity, whatever sorting algorithm is used |
| `FullTunnel.StrictlyIncreasing` | `internal/xray/tun_profile.go:158-165` | routes are strictly increasing by address, so the tie-break is never reached |
| `FullTunnel.CoverIsExact` | `internal/xray/tun_profile.go:141-167` | an address lies in some route if and only if it is unprotected, and then in one route only |
| `FullTunnel.CoverIsUnique` | `internal/xray/tun_profile.go:141-167` | a set of addresses has one canonical cover |
| `FullTunnel.CoverIsShortest` | `internal/xray/tun_profile.go:141-167` | no CIDR list for the same set, overlapping or not, is shorter |
| `FullTunnel.SameUnionSameRoutes` | `internal/xray/tun_profile.go:141-167` | the result depends only on the union of the IPv4 cuts: order and duplicates do not matter |
| `FullTunnel.OneBlockPerLength` | `internal/xray/tun_profile.go:184-206` | a cut strictly inside a block leaves exactly one block of each length between theirs |
| `FullTunnel.RouteCountBound` | `internal/xray/tun_profile.go:141-167` | at most 1 + 31k routes for k IPv4 cuts |
| `FullTunnel.UniquePrefixes` | `cmd/client/main.go:295-306` | the de-duplication loop returns masked, distinct prefixes in the order of their first occurrence, and they cover the same addresses |
| `FullTunnel.FullTunnelRoutes` | `internal/xray/tun_profile.go:62-68` | the tunnel's routes hold exactly the addresses outside the mesh prefix, the protected hosts and the (defaulted) gateway |
| `VirtualPool.CapacityWrapsAtZero` | `internal/mesh/allocator.go:36-50` | at /0 the 32-bit capacity is 0 and capacity-1 wraps to the last address |
| `VirtualPool.LastIsBroadcast` | `internal/mesh/allocator.go:36-50` | capacity-1 is the broadcast offset for every prefix length 0 to 30 |
| `VirtualPool.OffsetStaysInside` | `internal/mesh/allocator.go:86-90` | adding a host offset never wraps and stays inside the prefix |
| `VirtualPool.AllocateKeepsValid` | `internal/mesh/allocator.go:36-72` | allocation keeps leases one-to-one and below the cursor |
| `VirtualPool.AllocateChanges` | `internal/mesh/allocator.go:36-84` | a node with a lease is told its address and nothing changes; a new lease is added and the cursor moves past it, never back; a release takes one lease away and leaves the cursor |
| `VirtualPool.AllocatedIsFresh` | `internal/mesh/allocator.go:36-72` | a new lease is an unleased host address: the cursor's while there is room, otherwise the least free one |
| `VirtualPool.ExhaustedIffFull` | `internal/mesh/allocator.go:36-72` | a new node is refused if and only if all 2^(32-bits)-3 hosts are leased |
| `VirtualPool.NewAllocator` | `internal/mesh/allocator.go:21-34` | refuses what is no IPv4 prefix of at most 30 bits; otherwise an empty pool over the masked prefix with the cursor after the gateway |
| `VirtualPool.Allocator.Scan` | `internal/mesh/allocator.go:46-72` | the first free offset of a range, or none if every offset in it is used |
| `VirtualPool.Allocator.Allocate` | `internal/mesh/allocator.go:36-72` | both scanning phases together do what the value-level allocation does; `byNode` and `used` stay inverse |
| `VirtualPool.Allocator.Release` | `internal/mesh/allocator.go:74-84` | drops the node's lease from both maps and leaves the cursor |
| `LeaseRegistry.NewRegistry` | `internal/mesh/registry.go:25-37` | fails exactly when the allocator refuses the prefix; otherwise holds no lease |
| `LeaseRegistry.Registry.RegisterAt` | `internal/mesh/registry.go:45-73` | the answer is the peer stored, found by its token and its address, with the old identity or the token drawn; each refusal exactly when its cause holds; all five maps in agreement afterwards |
| `LeaseRegistry.RegisterAnswers` | `internal/mesh/registry.go:45-73` | the same of the value-level registration |
| `LeaseRegistry.Registry.Undo` | `internal/mesh/registry.go:60-64` | a failed token gives the address back and leaves the leases as they were |
| `LeaseRegistry.Registry.GetByVirtualIP` | `internal/mesh/registry.go:90-99` | finds the one peer that holds the address, if any |
| `LeaseRegistry.Registry.GetByToken` | `internal/mesh/registry.go:101-110` | finds the one peer whose current token it is, if any |
| `LeaseRegistry.Registry.TouchByToken` | `internal/mesh/registry.go:112-126` | refreshes exactly the token's holder |
| `LeaseRegistry.Registry.ExpireBefore` | `internal/mesh/registry.go:128-145` | removes exactly the leases not seen after the cutoff, from all maps, and lists them by node ID |
| `LeaseRegistry.Registry.List` | `internal/mesh/registry.go:147-156` | every peer once, by node ID |
| `LeaseRuns.ReachableLeasesValid` | `internal/mesh/registry.go:45-145` | after any run of register, touch, sweep and failed tokens the leases are one-to-one in node, address and token |
| `LeaseRuns.LiveNodeKeepsIdentity` | `internal/mesh/registry.go:52-57` | a node's address and token do not change while its lease lives |
| `LeaseRuns.SpentTokenStaysSpent` | `internal/mesh/registry.go:101-145` | an expired token never authenticates again |
| `LeaseRuns.StepOfHolder` | `cmd/server/main.go:141-142` | a sweep at T removes a node if and only if T - LastSeen is at least the TTL, and no other call does |
| `LeaseRuns.RefreshedNodeKeepsLease` | `cmd/server/main.go:130-143` | a node whose refresh gaps stay below the TTL keeps its lease for the whole run |
| `LeaseRuns.SilentNodeExpires` | `cmd/server/main.go:130-143` | a node silent for the TTL is gone after the next sweep |
| `LeaseRuns.TickAfterTTL` | `cmd/server/main.go:131-135` | with ticks every min(heartbeat, TTL/3) some tick falls at least a TTL and at most 4/3 of the TTL after any moment |
| `LeaseRuns.TickIntervalIs` | `cmd/server/main.go:131-134` | the interval is the heartbeat, or the longest time of which three fit into the TTL if that is shorter and not zero |
| `LeaseRuns.SilentNodeGoneByFourThirds` | `cmd/server/main.go:130-143` | in every run swept at those ticks, a node holds no lease once 4/3 of the TTL has passed since its last refresh |
| `ProbeTickets.TicketManager.Issue` | `internal/p2p/tickets.go:51-80` | the checks in order, the new ticket, and the pruned map with it added |
| `ProbeTickets.MintedIff` | `internal/p2p/tickets.go:51-80` | a ticket exactly for two distinct, non-blank nodes and a token, from the one to the other, for the time to live; otherwise which refusal |
| `ProbeTickets.IssueKeeps` | `internal/p2p/tickets.go:66-78` | an issue keeps the new ticket and the others not yet expired; a refusal touches nothing |
| `ProbeTickets.TicketManager.ListForNode` | `internal/p2p/tickets.go:82-106` | exactly the live tickets of the node, strictly ordered by expiry and token |
| `ProbeTickets.TicketManager.Verify` | `internal/p2p/tickets.go:108-127` | accepts a live token for its pair in either order; prunes exactly if token and nodes pass the first checks |
| `ProbeTickets.TicketManager.ForgetNode` | `internal/p2p/tickets.go:129-141` | drops exactly the tickets that name the node |
| `ProbeTickets.TicketManager.PruneLocked` | `internal/p2p/tickets.go:150-156` | drops exactly the expired tickets |
| `ProbeTickets.MapMirrorsHistory` | `internal/p2p/tickets.go:51-156` | in every run the lazily pruned map holds every live ticket of the history and nothing the history does not back |
| `ProbeTickets.VerifyIffHistory` | `internal/p2p/tickets.go:108-127` | a token verifies for a pair if and only if it was issued for it less than the TTL ago and neither node was forgotten since |
| `ProbeTickets.ListingIffHistory` | `internal/p2p/tickets.go:82-106` | a listing is exactly the history's live tickets of the node, whatever was pruned |
| `ProbeTickets.TokenNamesOneTicket` | `internal/p2p/tickets.go:58-79` | two tickets the manager holds at any two moments of a run are the same if and only if their tokens are |
| `ProbeTickets.AnswersAreHeld` | `internal/p2p/tickets.go:51-106` | every ticket a reply carries, listed or just issued, is in the manager's map after the call |
| `PathSelector.Selector.MarkDirectHealthy` | `internal/p2p/selector.go:59-76` | records the endpoint until the mark's time plus the TTL, or fails and changes nothing |
| `PathSelector.Selector.Select` | `internal/p2p/selector.go:84-96` | direct while the entry lasts; an expired entry is dropped |
| `PathSelector.SelectDropsExpired` | `internal/p2p/selector.go:84-96` | after Select the node has an entry exactly if it lasts, and no other entry is touched |
| `PathSelector.DirectIffFreshMark` | `internal/p2p/selector.go:59-96` | in every run Select says direct if and only if the node's last mark is a healthy one from that endpoint less than the TTL ago |
| `ReplayCache.DirectReplayCache.AcceptDirectReplayKey` | `cmd/client/direct_replay.go:18-43` | prunes, then accepts exactly the keys without an unexpired entry, and remembers them until the ticket expires |
| `ReplayCache.RefusedUntil` | `cmd/client/direct_replay.go:18-43` | after an acceptance the key is refused exactly until the ticket expires, or for 30 seconds if it does not or already has |
| `ReplayCache.ExpiredAreForgotten` | `cmd/client/direct_replay.go:33-42` | each call leaves its own key and the entries still to expire, and nothing else |
| `ReplayCache.AcceptedIffNotRemembered` | `cmd/client/direct_replay.go:18-43` | in every run a key is accepted if and only if no earlier acceptance of it is still remembered |
| `ReplayCache.AcceptedTwiceOnlyAfterExpiry` | `cmd/client/direct_replay.go:18-43` | a second acceptance comes no earlier than the expiry of the first |
| `ReplayCache.AcceptsTwiceIffZeroExpiry` | `cmd/client/direct_replay.go:18-43` | a key of a ticket live at both moments can be accepted twice if and only if the ticket has no expiry |
| `ReplayCache.ZeroExpiryForgets` | `cmd/client/direct_replay.go:22-29` | a run in which a ticket without expiry lets one key through twice |
| `ProbeFrames.ExchangeCompletes` | `internal/p2p/probe.go:64-157` | a fresh probe is accepted by its target, whose ack the prober accepts, while the ticket lives |
| `ProbeFrames.MacInputInjective` | `internal/p2p/probe.go:219-230` | the MAC input of a frame whose node IDs hold no NUL stands for no other well-formed frame |
| `ProbeFrames.MacInputUnambiguousIff` | `internal/p2p/probe.go:219-230` | the node fields of a MAC input can be read in one way if and only if they hold no NUL |
| `ProbeFrames.MacInputNamesFrameIff` | `internal/p2p/probe.go:193-230` | among well-formed frames the MAC input stands for one frame if and only if no other NUL cuts the two IDs into a pair of distinct, non-blank IDs |
| `ProbeFrames.MacInputAmbiguousWithNul` | `internal/p2p/probe.go:219-230` | with a NUL one MAC input stands for two pairs of nodes |
| `ProbeFrames.IdentifierNamesSecret` | `internal/p2p/probe.go:44-51` | equal ticket identifiers mean equal secrets |
| `DirectPayload.SealDirectPayload` | `internal/p2p/data.go:28-89` | the checks in order, then a buffer filled at moving offsets that is byte for byte the specified datagram |
| `PayloadService.SealSucceedsIff` | `internal/p2p/data.go:28-46` | with a coordinator's ticket, between its nodes in either direction, exactly the payloads of at most 65535 bytes can be sealed, exactly until the ticket expires |
| `PayloadService.SealNeedsPair` | `internal/p2p/data.go:28-36` | nothing can be sealed between nodes that are not the ticket's pair |
| `PayloadService.MintedIsIssued` | `internal/p2p/tickets.go:51-80` | what the ticket manager issues is such a ticket |
| `PayloadService.SealedIsOpened` | `internal/p2p/data.go:28-151` | every such payload is sealed and the other node opens it to the same payload |
| `PayloadService.OpenRefusals` | `internal/p2p/data.go:91-125` | which refusal a datagram meets: too short, expired ticket, or lengths that do not add up |
| `DirectPayload.OpenUndoesSeal` | `internal/p2p/data.go:28-151` | for a live ticket, opening undoes sealing in either direction of the pair |
| `DirectPayload.OpenAcceptsOnlySeals` | `internal/p2p/data.go:91-151` | an accepted datagram is exactly the seal of the fields returned, under its nonce and a live ticket of the pair, addressed to the opener |
| `DirectPayload.AadInjective` | `internal/p2p/data.go:158-167` | the additional data of IDs without NUL names one ticket and one direction |
| `DirectPayload.AadUnambiguousIff` | `internal/p2p/data.go:158-167` | the additional data names one pair if and only if the IDs hold no NUL |
| `DirectPayload.AadAmbiguousWithNul` | `internal/p2p/data.go:158-167` | with a NUL two pairs share one additional data |
| `DirectPayload.ReplayKeyNames` | `internal/p2p/data_meta.go:11-33` | replay keys are equal if and only if ticket ID and nonce are |
| `Packet.EndpointsIffHeaded` | `internal/packet/ipv4.go:20-64` | addresses are read exactly from packets with a whole IPv4 header, and are the ones written there |
| `Packet.HeaderErrors` | `internal/packet/ipv4.go:52-64` | why a header is not read: too short, not version 4, or a bad header length |
| `Packet.PortErrors` | `internal/packet/ipv4.go:34-50` | why ports are not read: not UDP, a later fragment, or no room for the UDP header |
| `Packet.PortsIffUDP` | `internal/packet/ipv4.go:34-64` | ports are read exactly from unfragmented UDP packets that hold the UDP header, and are the ones written there |
| `Packet.PortsImplyEndpoints` | `internal/packet/ipv4.go:20-64` | where ports can be read so can the addresses, and all four are the header's bytes |
| `RelayFrame.Marshal` | `internal/transport/frame.go:47-58` | refuses tokens over 512 bytes, otherwise writes exactly the frame's bytes by index |
| `RelayFrame.ParseUndoesMarshal` | `internal/transport/frame.go:47-83` | parsing a written frame gives it back |
| `RelayFrame.ParseAcceptsOnlyMarshalled` | `internal/transport/frame.go:60-83` | an accepted datagram is the written form of the frame read |
| `RelayAnswers.ParseIff` | `internal/transport/frame.go:60-83` | a datagram parses exactly if it is version 1, type 1 to 3, two bytes of token length up to 512, token and payload, with no token in a Deliver frame |
| `RelayAnswers.ParseErrors` | `internal/transport/frame.go:60-83` | which error every other datagram meets |
| `Discovery.Guard.GuardDiscovery` | `internal/transport/relay.go:231-275` | creates, prunes and refills the peer's state in place and gives the specified verdict; other peers' states are untouched |
| `Discovery.DiscoveryPeerState.Judge` | `internal/transport/relay.go:248-275` | duplicate check, refill, then one token or a refusal |
| `Discovery.NormalizeIsNormal` | `internal/transport/relay.go:102-113` | normalised options have a positive rate and burst and a window that is not negative |
| `Discovery.LevelIffRoom` | `internal/transport/relay.go:259-268` | the bucket level after given admissions leaves room for more if and only if every stretch does |
| `Discovery.AdmittedIffEnvelope` | `internal/transport/relay.go:231-275` | a packet that is no duplicate is admitted if and only if, counting it, every stretch up to now has at most burst + rate * length admissions |
| `Discovery.EnvelopeHolds` | `internal/transport/relay.go:231-275` | that envelope holds over every stretch of every run |
| `Discovery.DuplicateIffRecent` | `internal/transport/relay.go:248-257` | a packet is a duplicate if and only if its fingerprint was admitted less than a window ago |
| `Discovery.CacheBounded` | `internal/transport/relay.go:248-274` | the dedup cache holds fewer than burst + rate * window entries after every packet |
| `Discovery.NodeRunsAlone` | `internal/transport/relay.go:238-246` | one peer's state and verdicts are those of its own packets run alone |
| `Relay.Relay.HandleDatagram` | `internal/transport/relay.go:171-214` | authenticate, bind, then deliver or fan out over the registry's one sorted listing, with the specified state, sends and outcome |
| `RelayAnswers.UnicastReachesHolder` | `internal/transport/relay.go:191-214` | a packet that is no discovery traffic goes to the holder of its destination address and nobody else, exactly if that node has an endpoint and the socket accepts the write: one Deliver frame with the very payload, to that endpoint |
| `RelayAnswers.UnicastOutcome` | `internal/transport/relay.go:209-213` | and the outcome says which of these it was |
| `RelayAnswers.StrangersChangeNothing` | `internal/transport/relay.go:171-182` | what is no frame, a Deliver frame, or bears no current token changes nothing and is sent to nobody |
| `RelayAnswers.ClientFrameBinds` | `internal/transport/relay.go:183-187` | every other frame binds its sender, and a Hello does nothing else |
| `RelayAnswers.BadPacketsGoNowhere` | `internal/transport/relay.go:188-197` | a packet that is too long, no IPv4 packet, or not from the leased address goes no further |
| `RelayAnswers.DiscoveryIff` | `internal/transport/relay.go:216-229` | a packet is discovery traffic exactly if it is unfragmented UDP to 224.0.0.251 port 5353 or 239.255.255.250 port 1900 |
| `RelayAnswers.NotAdmittedReachesNobody` | `internal/transport/relay.go:199-207` | a discovery packet the guard does not admit is sent to nobody |
| `Relay.Relay.BroadcastPacket` | `internal/transport/relay.go:309-322` | the loop over the registry's listing, stopping at the first failed write |
| `Relay.Relay.Candidates` | `internal/transport/relay.go:132-145` | every bound endpoint once, by node ID |
| `Relay.Relay.ForgetPeer` | `internal/transport/relay.go:118-126` | drops the node's endpoint and discovery state and nothing else |
| `Relay.Provenance` | `internal/transport/relay.go:171-214` | every datagram sent reads back byte for byte as a packet from an authenticated sender with its leased source address, and went to the bound endpoint of the destination's holder, or of another leased peer for discovery traffic |
| `Relay.AdmittedReachesEachOnce` | `internal/transport/relay.go:309-322` | with a working socket an admitted discovery packet goes exactly once to every other leased peer with an endpoint |
| `Relay.EndpointIsLastBind` | `internal/transport/relay.go:277-293` | in every run a bound endpoint is where the node's last authenticated frame came from, since it was last forgotten |
| `Relay.SentToLastBind` | `internal/transport/relay.go:295-307` | in every run each datagram goes to the address of the receiving node's last authenticated frame |
| `P2PClient.P2PRuntime.ReplaceTickets` | `cmd/client/p2p_runtime.go:250-281` | the usable fetched tickets, the live ones held before, and only the probes younger than 10 seconds |
| `ClientAnswers.RefreshIff` | `cmd/client/p2p_runtime.go:250-281` | after a refresh the client holds exactly what the reply offers and what it held that is live; probes stay pending exactly for their first 10 seconds |
| `P2PClient.P2PRuntime.ReplaceCandidates` | `cmd/client/p2p_runtime.go:283-298` | exactly the acceptable candidates, the last of each node |
| `ClientAnswers.ListingReplaces` | `cmd/client/p2p_runtime.go:283-298` | each node keeps its last candidate observed at most 30 seconds ago and at most 5 ahead; the old ones are forgotten |
| `P2PClient.P2PRuntime.HasLive` | `cmd/client/p2p_runtime.go:343-350` | whether a live ticket leads from this node to the target |
| `P2PClient.P2PRuntime.IssueNeededTickets` | `cmd/client/p2p_runtime.go:300-341` | unless a request fails, it asks once for exactly the candidates above the node to which no held live ticket leads and for which none was issued in the last 10 seconds, and stores what it gets |
| `ClientAnswers.StoredAll` | `cmd/client/p2p_runtime.go:327-339` | every answered target's ticket is held and its time of issue noted; nothing held is lost from the map |
| `ClientAnswers.IssuedIsHeld` | `cmd/client/p2p_runtime.go:331-338` | an issued ticket is held under its identifier, and its target counts as issued for 10 seconds |
| `P2PClient.P2PRuntime.SendProbe` | `cmd/client/p2p_runtime.go:381-405` | a probe is pending exactly if it was built, resolved and written |
| `ClientAnswers.SendProbeMeans` | `cmd/client/p2p_runtime.go:381-405` | with a coordinator's ticket and 16 random bytes a probe is pending under its nonce exactly if the endpoint resolves and the write succeeds |
| `ClientAnswers.ProbeIsMade` | `internal/p2p/probe.go:64-85` | such a probe is always made, from source to target, signed with the ticket's key |
| `ClientAnswers.ProbeVerifiesIff` | `internal/p2p/probe.go:107-157` | and verifies exactly until the ticket expires |
| `ClientAnswers.OnlyOwnProbesVerify` | `internal/p2p/probe.go:107-157` | nothing else verifies under a ticket |
| `ClientAnswers.ProbeVerdicts` | `internal/p2p/probe.go:107-157` | why a probe does not verify |
| `ClientAnswers.OnlyOwnAcksVerify` | `internal/p2p/probe.go:120-131` | an ack verifies only as the answer to this probe, under the ticket's key, while it lives |
| `P2PClient.P2PRuntime.ProbeTargets` | `cmd/client/p2p_runtime.go:352-372` | own live source tickets whose target has a candidate |
| `P2PClient.P2PRuntime.HandleDatagram` | `cmd/client/p2p_runtime.go:80-132` | answers a verified probe addressed to this node; a verified ack of a pending probe marks its target and uses it up; anything else changes nothing |
| `ClientAnswers.ProbeIsAnswered` | `cmd/client/p2p_runtime.go:95-113` | the target of a live ticket answers each probe made with it, in its own name, by an ack the prober accepts while the ticket lives |
| `ClientAnswers.OtherProbesAreDropped` | `cmd/client/p2p_runtime.go:95-101` | a probe for another node, or one that does not verify, changes nothing |
| `ClientAnswers.AckCompletesIff` | `cmd/client/p2p_runtime.go:115-128` | a valid ack takes away its own nonce and no other and makes the path direct for 30 seconds; any other frame changes nothing |
| `P2PClient.P2PRuntime.HandleDirectPayload` | `cmd/client/direct_runtime.go:59-104` | a datagram is passed on exactly if it does not start with the eight bytes XRMP2PD1; otherwise the specified checks, outcome and state |
| `PayloadService.NotDirectIff` | `cmd/client/direct_runtime.go:60-66` | the same of the value-level handler, and that nothing changes then |
| `PayloadService.SealIsDelivered` | `cmd/client/direct_runtime.go:59-104` | every peer's seal for this node under a held live ticket, with the right addresses and a key not remembered, is delivered from any address that parses; the path is then direct for 30 seconds and the key remembered |
| `PayloadService.OnlySealsAreDelivered` | `cmd/client/direct_runtime.go:59-104` | nothing else is delivered |
| `PayloadService.RefusalChangesNoPath` | `cmd/client/direct_runtime.go:59-104` | a refused datagram changes no path, and nothing at all if it fails before the replay cache |
| `P2PClient.P2PRuntime.SendDirectPayload` | `cmd/client/direct_runtime.go:18-57` | a datagram is sent if and only if the path is direct, a live ticket of the pair can seal, and nonce, resolution and write work; it goes to the selected endpoint; a failed resolution or write always clears the path |
| `PayloadService.SealableIff` | `cmd/client/direct_runtime.go:18-40` | with a direct path and a coordinator's ticket of the pair, exactly the payloads of at most 65535 bytes can be sent, while the ticket lives and a nonce is drawn |
| `P2PClient.P2PRuntime.CandidateForVirtualIP` | `cmd/client/direct_runtime.go:106-115` | a candidate with that address, or none if there is none |
| `P2PClient.P2PRuntime.LiveTicket` | `cmd/client/direct_runtime.go:124-137` | a live ticket of the pair, or none if there is none |
| `ClientRuns.HeldTicketsHeard` | `cmd/client/p2p_runtime.go:250-341` | every ticket a client holds was in a coordinator's answer and is kept under its identifier |
| `ClientRuns.CoordinatorTicketsAgree` | `internal/p2p/tickets.go:158-164` | tickets with distinct 32-byte tokens have distinct identifiers, so an identifier keeps one expiry |
| `ClientRuns.AnswersEverHeld` | `internal/p2p/tickets.go:51-106` | in every run of the ticket manager, each ticket a reply carries is one it held |
| `ClientRuns.ServedTicketsAgree` | `internal/p2p/tickets.go:51-80` | tickets a coordinator's run ever held always expire, and an identifier stands for one of them |
| `ClientRuns.AtMostOnce` | `cmd/client/direct_runtime.go:59-104` | in every run of a client served by a coordinator's run, each ticket ID and nonce is delivered at most once, although cache entries are pruned |
| `ClientRuns.DirectIffFreshEvidence` | `internal/p2p/selector.go:59-96` | in every run the selector says direct if and only if the last word on the peer is an ack of an own probe or an accepted payload from that endpoint less than the TTL ago, with no failure since |
| `ClientRuns.CompletionAnswersOwnProbe` | `cmd/client/p2p_runtime.go:115-128` | a mark by ack answers an own pending nonce with a MAC under that probe's live ticket, and uses the nonce up |
| `ClientRuns.ForgedAckChangesNothing` | `cmd/client/p2p_runtime.go:115-128` | a forged ack neither uses a pending probe up nor changes a path |
| `ProbeAgreement.Agreement` | `cmd/client/p2p_runtime.go:80-132` | if honest a marks honest b healthy by an ack for a nonce, then a drew that nonce for a probe of b, b verified that probe in between under the same ticket, live then, and the ticket is live at the mark |
| `ProbeAgreement.OneMarkPerNonce` | `cmd/client/p2p_runtime.go:115-128` | in the whole system a nonce gives at most one mark |
| `ProbeAgreement.CoordinatorTicketsSound` | `internal/p2p/tickets.go:51-80` | the tickets of a run come from a coordinator's run, so each expires and its identifier names it |
| `ProbeAgreement.AckFrame` | `internal/p2p/probe.go:87-105` | a node signs acks only in its own name, for a probe it verified |
| `ProbeAgreement.NodesSound` | `cmd/client/p2p_runtime.go:381-405` | in every run each pending probe was made by its own node, from a ticket it sources, and has been pending ever since |
| `ProbeAgreement.ExchangeIsRun` | `cmd/client/p2p_runtime.go:80-132` | the honest exchange of five steps is such a run and ends in a mark |
| `PayloadAgreement.PayloadAgreed` | `cmd/client/direct_runtime.go:59-104` | whatever the node IDs, a payload honest b delivers as coming from honest a was sealed by a, for b, earlier, under the same live ticket and nonce |
| `PayloadAgreement.PayloadsAgreedOnce` | `cmd/client/direct_runtime.go:59-104` | agreement is one to one: two deliveries at a node without a restart of it in between come from two different sends |
| `PayloadAgreement.SealNotToSelf` | `cmd/client/direct_runtime.go:18-33` | what a node seals is never addressed to its own address |
| `PayloadAgreement.CandidatesAreListed` | `cmd/client/p2p_runtime.go:283-298` | in every run a node's candidates are other nodes it was told of |
| `PayloadAgreement.LeasedAddressesApart` | `cmd/server/main.go:188-209` | if each node keeps its leased address and hears the coordinator's listings, no other node's candidate has its address |
| `PayloadAgreement.PayloadSealer` | `cmd/client/direct_runtime.go:59-104` | in any case it was sealed by a for b, or by b for a with coinciding directions |
| `PayloadAgreement.AadReflectsIff` | `internal/p2p/data.go:158-167` | the additional data of the two directions coincide if and only if a, NUL, b equals b, NUL, a |
| `PayloadAgreement.NulFreeNeverReflects` | `internal/p2p/data.go:158-167` | distinct IDs without NUL never coincide in this way |
| `PayloadAgreement.ReflectedSealOpens` | `internal/p2p/data.go:91-151` | where the directions coincide, a node opens its own seal as coming from its peer once the header's IDs are swapped |
| `PayloadAgreement.TwoDeliveriesNeedRestart` | `cmd/client/direct_replay.go:18-43` | a node delivers one ticket and nonce twice only if its process starts again in between |
| `RestartReplay.RestartReplays` | `cmd/client/direct_replay.go:11-20` | a run of honest nodes in which a restart lets a datagram through twice |
| `TicketSystem.ReplaceKeeps` | `cmd/client/p2p_runtime.go:250-281` | a refresh keeps every live ticket of the reply |
| `TicketSystem.BeginStep` | `cmd/client/p2p_runtime.go:300-326` | a target that needs a ticket after a fetch has no live one at the coordinator |
| `TicketSystem.IssueStep` | `cmd/client/p2p_runtime.go:327-339` | issuing for such a target keeps the system-wide invariant |
| `TicketSystem.OneLiveTicketPerPair` | `cmd/client/p2p_runtime.go:148-167` | in every run, with lost replies and restarted processes, the coordinator never holds two live tickets for one pair |
| `TicketSystem.FinishedCycleHasTickets` | `cmd/client/p2p_runtime.go:148-167` | a poll cycle that runs to its end leaves the client with a ticket for every candidate above it, except where one was issued less than 10 seconds before |
| `TicketSystem.SourceBelowTarget` | `cmd/client/p2p_runtime.go:319-323` | every ticket ever minted is sourced by the smaller node ID |
| `TicketSystem.CoordinatorAloneAllowsTwo` | `internal/p2p/tickets.go:51-80` | the ticket manager alone does not prevent two live tickets for a pair |
| `TicketSystem.IssueKeepsOneLiveIff` | `internal/p2p/tickets.go:51-80` | an issue keeps one live ticket per pair if and only if the pair has no live ticket yet |
| `Coordinator.Api.Heartbeat` | `cmd/server/main.go:175-186` | a valid session refreshes its own lease and nothing else |
| `Coordinator.Api.ListCandidates` | `cmd/server/main.go:188-209` | exactly the leased nodes with an endpoint, by node ID, with their leased addresses |
| `Coordinator.Api.IssueProbeTicket` | `cmd/server/main.go:211-246` | the checks in order; a ticket created leads from the caller to another leased node, lives for the TTL and is held |
| `Coordinator.CreatedTicket` | `cmd/server/main.go:211-246` | the same of the handler's value: both nodes of a created ticket hold leases |
| `Coordinator.CreatedIff` | `cmd/server/main.go:211-246` | a ticket is created exactly for an authenticated caller, another leased node and a token drawn; every other answer exactly when its cause holds |
| `Coordinator.AuthenticatedIff` | `cmd/server/main.go:261-275` | a request is authenticated exactly as the holder of the token after "Bearer " in its header |
| `Coordinator.OwnHeaderAuthenticates` | `cmd/server/main.go:261-275` | so a client's own header authenticates it |
| `Coordinator.Api.ListProbeTickets` | `cmd/server/main.go:248-259` | a valid session sees exactly its own live tickets |
| `Coordinator.Api.SweepLeases` | `cmd/server/main.go:141-152` | one sweep removes exactly the expired leases and every endpoint, discovery state and ticket that names their nodes |
| `Coordinator.CandidatesAreLeased` | `cmd/server/main.go:195-207` | the listing shows every leased node with an endpoint and no other, with its trimmed ID, leased address, endpoint and time of observation |
| `CoordinatorRuns.OnlyLeasedNodesAfterSweep` | `cmd/server/main.go:130-155` | with handlers between the sweeper's steps, endpoints, discovery state and tickets name only leased nodes or nodes on the sweeper's list; between sweeps leased nodes only |
| `CoordinatorRuns.ExpireBeforeIsExpire` | `cmd/server/main.go:142-143` | what the registry lists as expired is the queue of the sweeper's steps |
| `CoordinatorRuns.BindAfterCleanupLeavesEndpoint` | `internal/transport/relay.go:179-183` | if a sweep falls between authenticating and binding, memory stays in order if and only if the sweep does not expire the sender |
| `CoordinatorRuns.IssueAfterCleanupLeavesTicket` | `cmd/server/main.go:236-240` | if a sweep falls between looking up and issuing, memory stays in order if and only if the sweep expires neither node |
| `CoordinatorRaces.LeftIffRecordedLate` | `internal/transport/relay.go:179-203` | in every run with the datagram handler cut at its locks, a node neither leased nor still to be forgotten has an endpoint (or discovery state) if and only if it was bound (or guarded) after its lease was gone and that map cleaned up, and not forgotten there since |
| `CoordinatorRaces.TicketLeftIffLateMint` | `cmd/server/main.go:211-245` | in every run with the ticket handler cut in three, a held ticket names a node neither leased nor still to be forgotten if and only if it was issued after that node's lease was gone and cleaned up after, and not dropped since |
| `CoordinatorRaces.CleanIffNothingLate` | `cmd/server/main.go:130-155` | between sweeps, endpoints, discovery state and tickets name leased nodes only if and only if nothing still there was bound, guarded or issued late |
| `CoordinatorRaces.RaceLeavesEndpoint` | `internal/transport/relay.go:179-183` | a run that leaves an endpoint of an unregistered node behind: the sweep falls between authenticating and binding |
| `CoordinatorRaces.RaceLeavesDiscovery` | `internal/transport/relay.go:183-200` | a run in which the sweep falls between binding and guarding and leaves discovery state of a node without lease or endpoint behind |
| `CoordinatorRaces.MdnsIsGuarded` | `internal/transport/relay.go:191-203` | an empty mDNS packet from the node's address is such a datagram |

## Left out

- JSON encoding and strict JSON parsing, HTTP statuses, sockets and read loops, TUN devices, `ip` and `iptables` commands, temporary files and DNS: input and output the model cannot see.
- Xray process supervision, health checks, telemetry and counters, router and discovery helpers, `cmd/meshcheck`, logging: they start and watch processes, format output and count events; no lease, ticket, path or route is decided there.
- The dispatch loops of `pump` in `cmd/client/main.go`: they only choose between the relay and the direct handlers modelled here.
- IEEE rounding in the bucket's token count: the bucket uses real arithmetic.
- White space outside ASCII in `strings.TrimSpace`: the model trims the six ASCII white-space bytes.
- IPv6 prefixes among the protected ones are kept as a case without bits: the generator skips them.
- The expansion of AES-GCM, HMAC, SHA-256 and the random source: ideal interfaces and parameters instead.
- Go mutexes below one method or handler: each is one atomic step, see above.
- HTTP requests that a client gave up on and the coordinator processes later, and two processes under one node ID: `TicketSystem` supposes one process per node and that a failed request has been processed by then or never will be.
- Clocks that run backwards, and clocks that differ between machines.
- P2PClient.P2PRuntime.ProbeTargets: `sendProbes` is represented by the set of tickets it probes with; each probe is then one `SendProbe` step.
- ProbeAgreement.Agreement: says nothing about peers outside the set of honest nodes, whose tickets give them the key.
