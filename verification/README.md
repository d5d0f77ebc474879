# A verified model of the software router

The repository is an IPv4 router for a virtual network: it answers ARP, forwards packets by longest
prefix, answers pings, sends ICMP errors, and resolves next-hop MAC addresses through a cache with a
queue of pending requests that a timer thread retries and gives up. It also carries a SHA-1 for its
session authentication. This project models those parts in Dafny and proves what they promise.

## How the model is built

- `Words`, `Checksum`: machine words, the wire's byte order, `cksum`.
- `Routing`, `Frames`, `Forwarding`: interfaces and routes, frames and their wire format, and `Decide`, which
  says what `sr_handlepacket` makes of a frame before the ARP cache comes in.
- `Arp`, `Router`: the state (a 100-slot entry array, the request list, the clock, and histories), the mutually
  recursive handler `Handle`/`Tell`/`TellOne`/`Resolve`, the sweep, the tick, the packet handler, and runs: the
  state after any sequence of arrivals and ticks from power-up. A call returns `Done`, runs into undefined
  behaviour (`Fault`), or is cut off by its bound (`Cut`); each carries the state reached.
- `Actions`: nine elementary actions with the conditions under which the code takes them. Everything between two
  events is a sequence of such actions (`HandleLeads`, `SweepLeads`, `EventLeads`), so what every action keeps
  (`Safety`, `Timing`) every run keeps (`Runs`), also in the midst of an event that is not handled to its end.
  `Transmission` ties the frames in the log to the packets handed over and says how the router speaks ARP;
  `Accounting` follows every packet to where it ends up, `Provenance` every mapping to the frame it came from and every
  request to its end. `Effects` says what an event puts on the wire, from the frame that came in.
- `Cascade`: when the recursion of the handler ends. `Spread`: exactly which requests it gives up. `Sweeping`: the
  walk over a list that its own steps change. `Forecast`: whether a tick ends, follows a freed pointer or sticks,
  told from the state before it. `Definedness`: exactly when an arrival, an event and a run are handled to their end.
- `Scenario`, `Hang`, `Crashes`, `Caching`: runs from power-up that do not end, that end in undefined behaviour, and
  after which a lookup does not return the last mapping accepted.
- `Lifetime`: how long a request lasts under a punctual timer. `Freshness`: how old the mapping is that a frame is sent
  to. `Interleaving`: the two threads. `Hops`: chains of
  routers.
- `Buffers`, `Device`: the program itself. `Device.Instance` has the array, the list and the log as fields; its
  methods are the loops and the recursion of the sources, working in place on byte buffers, and each is proved
  equal to the function of the state it implements.
- `Sha1Standard`, `Sha1`: FIPS PUB 180-1 as pad-then-fold, and the byte-at-a-time context that refines it.

The request list is only ever appended to, so each allocated request gets a growing number (`node`) that stands
for its address in memory. The saved `next` pointer of the sweep is such a number; following one that is no longer
in the list is the fault `FreedRequest`. The fields `born` and `since` of a request, and the log and the
five fields behind it in the state, are history and influence nothing.

The recursion of `sr_arpcache_handle_arpreq` has no bound in the source. The function `Handle` takes one: a nesting
depth, or the set of requests that may still be given up. `CutOffIsExact` shows that with the second the function
returns a state exactly when the unbounded recursion does, and the same one, so runs are stated with it.

## Where the code is narrower than its comments or the standards

- A route with mask 0 is never chosen: `FindLpmEntry` and `LongestPrefix` say so exactly.
- Only TTL 1 is caught; TTL 0 wraps to 255 (`HopLimit`).
- Packets that wait for an address are sent newest first (`ReleasedNewestFirst`).
- The gateway of a route is not used; the address resolved is the packet's destination.
- A full cache drops a new mapping (a comment speaks of evicting one at random), and an accepted mapping can be
  shadowed by an older duplicate in a later slot. `AcceptedMappingIsSeenIff` gives the exact condition,
  `FullCacheDropsMapping` and `NewMappingIsShadowed` a run for each.
- "The packets waiting on a request are told and the request is destroyed" does not always come to an end. A
  packet from a host to itself is enough (`SelfAddressedPacketHangs`); `CascadeTerminatesIff` is the exact condition.
- "Call the handler for every request" does not always happen, since a cascade can free the saved successor or a
  later request (`SweepVisitsAllIffCalm` is the exact condition). Freeing the saved successor is a use after free:
  a packet from B to A and one from C to B are enough (`ChainedPacketsCrash`), and `TickTurnsOut` says exactly when
  it happens and when the tick ends. If it does come to its end, the hopeless requests are gone and no other
  (`TickGivesUpHopeless`), and no request is left overdue (`TickSettles`).
- ICMP errors quote 28 bytes without checking that the packet has them, on arrival (`DecideIsDefined` says exactly
  when that is undefined behaviour) and on expiry (`ShortPacketCrashes`, and `CascadeEndsIff` for the condition). An
  ARP request for an address without a route dereferences a null route: one TCP packet to the router from a host
  without a route is enough (`UnroutableSenderCrashes`). `ArrivalFaultsIff` is the exact condition for an arrival,
  and `RunCompletesIff` for a whole run to be handled to its end.

## Model

| member | source | states |
|---|---|---|
| `Checksum.Cksum` | sr_utils.c:8-20 | for every buffer the loops end with the byte-swapped value in 1..65535 that is congruent to minus the 32-bit sum modulo 65535; up to 131074 bytes, minus the true sum |
| `Checksum.WordSumBound` | sr_utils.c:12-15 | the sum of n bytes is at most ceil(n/2) * 65535, so 131074 bytes never wrap the accumulator |
| `Checksum.AllOnesSum` | sr_utils.c:12-15 | the bound is exact: 131076 bytes of ones wrap and give a different checksum |
| `Checksum.ReorderingIsInvisible` | sr_utils.c:12-19 | buffers with the same 16-bit words in any order have the same checksum |
| `Checksum.SingleWordDetection` | sr_utils.c:12-19 | changing one word goes unseen if and only if it is unchanged or turns 0x0000 into 0xffff or back |
| `Checksum.AcceptsIffSumFolds` | sr_router.c:153-157 | clearing the field and recomputing accepts if and only if the field is not zero and the sum over everything folds to 0xffff |
| `Checksum.SealedIsAccepted` | sr_router.c:201-205 | a field set to the computed checksum passes the check |
| `Routing.FindIface` | sr_if.c:37-55 | the first interface of that name, or none if there is none |
| `Routing.VerifyRoutingTable` | sr_main.c:269-303 | 0 if and only if both lists are non-empty and every route's interface exists; otherwise the number of routes that do not, or 999 |
| `Routing.FindLpmEntry` | sr_router.c:499-519 | the earliest entry with the greatest non-zero matching mask; none if and only if no non-zero mask matches |
| `Routing.LongestPrefix` | sr_router.c:499-519 | for contiguous masks this is longest prefix match, except that zero-length prefixes are never found |
| `Routing.MatchesIffPrefixAgrees` | sr_router.c:509-511 | under a contiguous mask an entry matches if and only if the leading bits agree |
| `Routing.PermutationKeepsPrefix` | sr_router.c:499-519 | permuting the table changes neither whether a route is found nor its prefix and mask |
| `Routing.AppendedRoute` | sr_rt.c:93-132 | appending a route changes the result for an address if and only if it matches with a mask greater than zero and than every mask that matched, and then to the new route |
| `Frames.BytesRoundTrip` | sr_protocol.h:82-206 | reading any buffer as a frame and writing it back gives the same bytes |
| `Frames.FrameRoundTrip` | sr_protocol.h:82-206 | a frame written to bytes is read back unchanged |
| `Frames.IpOnTheWire` | sr_protocol.h:82-206 | every field of an IPv4 header is at its offset in RFC 791, high byte first |
| `Frames.ArpOnTheWire` | sr_protocol.h:82-206 | every field of an ARP packet is at its offset in RFC 826, high byte first |
| `Frames.FrameOnTheWire` | sr_protocol.h:82-206 | a frame is destination, source, type 0x0800 or 0x0806, header, rest |
| `Frames.ReadsFromTheWire` | sr_router.c:133-147 | a buffer is read as IPv4 if and only if it has type 0x0800 and 34 bytes, as ARP if and only if it has type 0x0806 and 42 bytes, and with the header that those bytes are |
| `Frames.HeaderOkOnTheWire` | sr_router.c:150-157 | on the header's bytes the validation is version 4 and the RFC 1071 check with a non-zero field |
| `Frames.BlockedRange` | sr_router.c:63-83 | the blocked addresses are exactly 10.0.2.0 to 10.0.2.255 |
| `Frames.BlackListedIff` | sr_router.c:63-83 | a packet is blocked if and only if its source or its destination is in 10.0.2.0 to 10.0.2.255 |
| `Forwarding.DeliveredIsSound` | sr_router.c:186-430 | every packet handed over for delivery has its destination as the address resolved, a valid header, the MAC of its interface as source, and avoids the blocked network if the router's interfaces do |
| `Forwarding.DecideIsDefined` | sr_router.c:134-497 | on a verified table, handling a frame is undefined if and only if an ICMP error has to quote a packet with fewer than eight bytes of data |
| `Forwarding.CrashesIff` | sr_router.c:134-497 | the same on any configuration, with or without an arrival interface |
| `Forwarding.ErrorQuotesPacket` | sr_router.c:243-272 | an ICMP error is addressed to the sender, has valid checksums, the right length, no options, TTL 255, "don't fragment" and the identification of the packet, and the header it quotes reads back as the offending one |
| `Forwarding.EchoReplyMirrors` | sr_router.c:196-205 | an echo reply exchanges the addresses, keeps the rest of the header, code, identifier and data, is of type 0 with TTL 255 and has valid checksums |
| `Forwarding.WhoIsEchoed` | sr_router.c:186-223 | an ICMP message of type 0 goes back to the sender from the address it wrote to if and only if the packet is valid, not blocked, for the router, ICMP of type 8 with a valid checksum (non-zero field, data folding to 0xffff) and the route to the sender exists; through that route, with everything else unchanged |
| `Forwarding.WhoIsAnswered` | sr_router.c:434-490 | an ARP reply goes out if and only if an ARP request for the address of its own interface came in, with every field of the reply; a mapping is learned if and only if an ARP reply to that address came in, namely its sender's |
| `Forwarding.WhoIsTold` | sr_router.c:234-430 | an ICMP error of that type and code goes back, from the interface the packet came in on and quoting its header, if and only if the packet is valid, not blocked, long enough, and is for the router over TCP or UDP (port unreachable), has no route (network unreachable) or may travel no further (time exceeded) |
| `Hops.ForwardsIsDecided` | sr_router.c:297-376 | the packet handler hands on the packet it got, changed in TTL and checksum only, if and only if the path model says that it is forwarded, and then puts out exactly the frame that the path model carries to the next router |
| `Hops.EveryDelivery` | sr_router.c:181-430 | every packet handed over for delivery is the one that came in on its way, an echo reply to its sender or an ICMP error about it |
| `Hops.HopLimit` | sr_router.c:303-360 | through any chain or loop a packet of TTL t >= 1 is forwarded at most t - 1 times, one of TTL 0 at most 255 times |
| `Hops.EveryHopIsValid` | sr_router.c:356-372 | every router on the way receives a header its validation accepts; only TTL and checksum change, the TTL by the number of hops |
| `Arp.Lookup` | sr_arpcache.c:157-183 | succeeds if and only if a valid entry for the address exists and returns one |
| `Router.HandleSettles` | sr_arpcache.c:34-151 | handling a request leaves it not overdue and makes no other request overdue |
| `Actions.HandleLeads` | sr_arpcache.c:34-151 | the handler with all its recursion is a sequence of elementary actions taken under their conditions |
| `Runs.SweepLeads` | sr_arpcache.c:21-32 | so is the sweep, whether it comes to its end or not |
| `Runs.EventLeads` | sr_router.c:99-497 | so is everything the code does about an arrival or a tick, whether that comes to its end or not |
| `Runs.RunIsSafe` | sr_arpcache.c:21-415 | the invariants of the rows below hold in the state that any run reaches, also in the midst of an event that crashes or is cut off |
| `Runs.EveryDepthIsSafe` | sr_arpcache.c:34-151 | they hold at whatever depth a recursion without end has reached |
| `Runs.PendingAddressesAreExclusive` | sr_arpcache.c:191-295 | in every run pending addresses are distinct and none is validly cached |
| `Runs.NoMisdelivery` | sr_router.c:206-480 | in every run what waits for an address is addressed to it, and every IPv4 frame sent went to a MAC that an earlier accepted reply gave for its destination |
| `Provenance.EveryMacWasHeard` | sr_router.c:466-479 | in every run every IPv4 frame sent went to a MAC for which an ARP reply to the router, naming the frame's destination, arrived in that run and not later |
| `Provenance.RunLearns` | sr_router.c:466-479 | every mapping learned in a run was heard in it |
| `Provenance.NoRequestIsLost` | sr_arpcache.c:250-342 | after any event a pending request is pending still, or its address was learned, or it was given up, and the log says so |
| `Runs.SentFramesPassChecks` | sr_vns_comm.c:518-552 | in every run every frame sent passes the send check, and every IPv4 frame sent has a header the router itself would accept |
| `Runs.SentIsHandedOver` | sr_router.c:363-374 | in every run the IPv4 frames sent, but for the destination MAC, are exactly the packets sent at once and those flushed by replies, as multisets |
| `Runs.ArpFramesAreProper` | sr_arpcache.c:121-146 | in every run every ARP request sent is a broadcast, with MAC and address of the interface of the route to the address asked for, out of which it leaves; every other ARP frame is a reply that names the interface it leaves on |
| `Runs.BlockedNetworkStaysOut` | sr_router.c:167-171 | with no interface in 10.0.2.0/24, no frame from or to it is ever queued or sent, expiry notices included |
| `Runs.AsksAreRateLimited` | sr_arpcache.c:54-147 | in every run two ARP requests for one address with no accepted reply between them are at least two seconds apart, across give-up and re-creation |
| `Runs.GivenUpOnlyAfterFiveAsks` | sr_arpcache.c:54-116 | a request is given up after exactly five ARP requests since its creation and at least ten seconds after it |
| `Runs.CacheAfterTick` | sr_arpcache.c:396-407 | a tick invalidates exactly the entries older than 15 seconds and changes nothing else of the cache |
| `Freshness.TickSendsFresh` | sr_arpcache.c:396-411 | a tick ages the cache first: what it sends goes to MACs learned within the last 15 seconds |
| `Freshness.SentWhileFresh` | sr_arpcache.c:396-407 | with ticks at most d seconds apart, no IPv4 frame is sent to a MAC learned for its destination more than 15 + d seconds before |
| `Runs.LookupIsTruthful` | sr_arpcache.c:157-183 | in every run a lookup succeeds exactly for valid entries and returns a MAC an accepted reply gave for the address |
| `Runs.AcceptedMappingIsSeenIff` | sr_arpcache.c:277-290 | the next lookup returns a new mapping if and only if there is a free slot and no different valid entry for the address behind it, or there is none and the lookup returned that entry already |
| `Caching.NewMappingIsShadowed` | sr_arpcache.c:166-290 | a run of three replies and a tick after which lookups return the older of two accepted mappings |
| `Caching.FullCacheDropsMapping` | sr_arpcache.c:277-290 | a run of 101 replies after which the last address accepted is not found |
| `Runs.SolicitedMappingIsSeen` | sr_router.c:469-479 | the mapping of a reply to a pending request is what the next lookup returns, if there is a free slot |
| `Accounting.RunConserves` | sr_arpcache.c:57-116 | in every run arrivals handed over plus one host unreachable per dropped packet with a reachable sender equal packets sent at once plus queued, and queued equals waiting plus flushed plus dropped, as multisets |
| `Accounting.RunDelivers` | sr_arpcache.c:57-116 | the same against the wire: arrivals handed over plus host unreachables owed equal the IPv4 frames in the log plus the packets waiting plus the packets dropped, but for destination MACs |
| `Accounting.NoticeIsHostUnreachable` | sr_arpcache.c:63-112 | what is owed for a dropped packet is one ICMP type 3 code 1 to its sender, quoting it, from and through the interface of the route to the sender; nothing without a route |
| `Effects.CachedIsSentAtOnce` | sr_router.c:363-370 | a packet for a cached address is appended to the log whole, to the cached MAC, and nothing else changes |
| `Effects.TransitGoesOnward` | sr_router.c:355-370 | for a packet in transit to a cached address that is exactly the frame the path model carries to the next router |
| `Effects.PingIsAnswered` | sr_router.c:186-223 | for a ping from a cached host it is the echo reply, with identifier and data kept |
| `Effects.RequestIsAnswered` | sr_router.c:446-463 | an ARP request for the interface's address puts exactly one reply on the wire |
| `Effects.ReplyFlushes` | sr_router.c:466-481 | an ARP reply stores its mapping in the first free slot and no other, and sends what waited for its address in list order, each packet whole and to the MAC of the reply |
| `Effects.ReleasedNewestFirst` | sr_arpcache.c:227-239 | packets that arrive for a pending address wait, and are sent by the reply, newest first |
| `Effects.GiveUpTellsAll` | sr_arpcache.c:57-116 | a request given up whose senders are cached: one host unreachable per packet, in list order, to the sender's MAC, then the request alone is gone |
| `Accounting.HandleBalances` | sr_arpcache.c:57-116 | the packets dropped by a cascade are exactly those whose senders were considered, because a request being given up is not touched meanwhile |
| `Accounting.TellSpares` | sr_arpcache.c:61-115 | while the senders of a request's packets are told, that request stays as it is |
| `Cascade.CutOffIsExact` | sr_arpcache.c:34-151 | cutting the recursion off at a repeated give-up returns a state if and only if the unbounded recursion does, and the same one |
| `Cascade.DeliveryIsExact` | sr_router.c:363-374 | the same for the packet handler |
| `Cascade.TrappedRecursesForever` | sr_arpcache.c:100-115 | with routes, interfaces and whole packets in place, handling a trapped request neither returns nor crashes within any depth: it nests deeper |
| `Cascade.CascadeTerminatesIff` | sr_arpcache.c:54-116 | with routes, interfaces and whole packets in place, the cascade ends if and only if the request leads into no set of hopeless requests that leads back into itself; if it leads into one, it nests beyond every depth |
| `Cascade.RankedTerminates` | sr_arpcache.c:54-116 | it ends whenever hopeless requests can be ranked so that senders, and the router's own address, rank lower |
| `Cascade.RankExistsIff` | sr_arpcache.c:54-116 | there is such a rank if and only if there is no trap |
| `Cascade.OwnSenderTraps` | sr_arpcache.c:109 | a hopeless request with a packet sent by the very host it waits for is trapped |
| `Hang.SelfAddressedPacketHangs` | sr_arpcache.c:54-116 | one packet from an unreachable host to itself and five ticks lead to a tick that does not end; on a verified table it does not crash either, but nests beyond every depth |
| `Sweeping.TickSettles` | sr_arpcache.c:21-32 | after every tick that ends, no pending request was last asked for more than a second ago |
| `Sweeping.SweepVisitsAllIffCalm` | sr_arpcache.c:21-32 | a sweep ends and handles every request present at its start if and only if no hopeless request has a hopeless sender at or behind its own place in the list |
| `Sweeping.CalmSweep` | sr_arpcache.c:21-32 | then each request is handled once, in list order, and exactly the hopeless ones are gone |
| `Sweeping.HandleGivesUp` | sr_arpcache.c:100-115 | telling a sender that is itself awaited hopelessly gives up that sender's request |
| `Spread.ReachEncloses` | sr_arpcache.c:100-115 | the reachable requests are the least set that holds the hopeless senders of the handled request and, with each member, its hopeless senders and the router's own address towards it |
| `Spread.CascadeRemovesReach` | sr_arpcache.c:54-116 | a cascade that ends gives up the handled request and exactly the hopeless requests reachable from it, leaves the other hopeless requests exactly as they were, and removes no other |
| `Spread.CascadeEndsIff` | sr_arpcache.c:54-116 | with routes and interfaces in place, it ends if and only if the request is not trapped and every packet that falls with it holds the bytes a notice quotes |
| `Forecast.TickTurnsOut` | sr_arpcache.c:21-32 | walking the list before the tick and skipping what is given up already: the tick ends if and only if no visited request is trapped or leads to a packet too short, and none takes the first request still behind it along; it uses a freed request if and only if that last happens first |
| `Forecast.TickGivesUpHopeless` | sr_arpcache.c:21-32 | a tick that ends has given up exactly the requests that were hopeless before it, whatever it skipped |
| `Lifetime.RequestsEndInTime` | sr_arpcache.c:54-58 | with ticks at most d seconds apart, every request is given up, or still young, 5 (1 + d) seconds after its creation |
| `Lifetime.EventAsks` | sr_arpcache.c:209-213 | after every event each pending request has been asked for at least once |
| `Definedness.ArrivalFaultsIff` | sr_router.c:206-430 | on a verified table and with whole packets waiting, an arrival reaches undefined behaviour if and only if the handler crashes by itself, or the packet is queued for an address without a route, or is too short and queued behind a request that is given up at once |
| `Definedness.EventDefined` | sr_arpcache.c:90-122 | with whole packets waiting, an arrival is free of undefined behaviour and leaves only whole packets with routes waiting if and only if it is regular (no crash of its own; if queued, whole and for an address with a route); a tick reaches undefined behaviour only through a freed request |
| `Definedness.RunDefined` | sr_router.c:206-430 | a run never dereferences a missing route or interface, never reads past a packet, and at no time keeps a packet waiting whose expiry would, if and only if all its arrivals are regular |
| `Definedness.ArrivalCompletesIff` | sr_router.c:206-430 | on a verified table an arrival is handled to its end if and only if the handler does not crash by itself and a packet to be queued has a route and, if its request is given up at once, starts a cascade that ends |
| `Definedness.TickHangsIff` | sr_arpcache.c:21-32 | with whole packets waiting, a tick nests beyond every depth if and only if the walk meets a trapped request first |
| `Definedness.EventCompletesIff` | sr_arpcache.c:21-116 | an event is handled to its end if and only if the state before it shows no trouble |
| `Definedness.RunCompletesIff` | sr_arpcache.c:21-116 | on a verified table a run is handled to its end if and only if every event on the way is free of trouble in the state that the events before it lead to |
| `Crashes.UnroutableSenderCrashes` | sr_arpcache.c:121-122 | one TCP or UDP packet to the router from a host without a route ends in a null route |
| `Crashes.ShortPacketCrashes` | sr_arpcache.c:86 | one short packet to a host that does not answer, and five ticks, end in a read past the packet |
| `Crashes.ChainedPacketsCrash` | sr_arpcache.c:27-31 | on a verified table, a packet from B to A and one from C to B with neither A nor B answering end in the use of a freed request |
| `Interleaving.EveryInterleavingIsExclusive` | sr_arpcache.c:157-295 | in every interleaving of the packet thread's critical sections with ticks and the passing of time, pending addresses are distinct and none is validly cached |
| `Interleaving.ReceiveIsMoves` | sr_router.c:99-497 | what the packet handler does about a frame, however it ends, is a sequence of such critical sections with no tick in between |
| `Interleaving.RunIsInterleaving` | sr_arpcache.c:392-412 | every run is such an interleaving |
| `Interleaving.TickKeepsExclusive` | sr_arpcache.c:392-412 | a tick keeps that and caches nothing, so a failed lookup stays failed until the packet thread acts on it |
| `Buffers.CheckHeader` | sr_router.c:150-157 | the in-place validation accepts exactly the valid headers and then leaves the buffer as it was |
| `Buffers.EditForward` | sr_router.c:356-362 | the in-place edits leave the bytes of the forwarded frame |
| `Buffers.EditEcho` | sr_router.c:197-205 | the in-place edits leave the bytes of the echo reply |
| `Buffers.EditArpReply` | sr_router.c:451-459 | the in-place edits leave the bytes of the ARP reply |
| `Buffers.BuildError` | sr_router.c:243-272 | the new buffer holds the bytes of the ICMP error |
| `Device.Instance.constructor` | sr_arpcache.c:362-377 | the initial state |
| `Device.Instance.LookupEntry` | sr_arpcache.c:157-183 | the scan of the array returns the last valid entry for the address |
| `Device.Instance.QueueReq` | sr_arpcache.c:191-244 | the packet is put at the head of the request for the address, which is appended first if there is none |
| `Device.Instance.Insert` | sr_arpcache.c:250-295 | the request is unlinked and returned, and the first free slot filled, if any |
| `Device.Instance.AcceptReply` | sr_router.c:466-481 | the new state is that of an accepted reply: mapping stored, request gone, its packets sent in order |
| `Device.Instance.Destroy` | sr_arpcache.c:299-342 | the request is unlinked and its packets are gone |
| `Device.Instance.HandleArpReq` | sr_arpcache.c:34-151 | the recursive method with its loop computes `Handle`, and ends |
| `Device.Instance.SweepReqs` | sr_arpcache.c:21-32 | the walk with the saved successor computes `Sweep`, and ends |
| `Device.Instance.Timeout` | sr_arpcache.c:396-411 | one round of the timer computes `Tick` |
| `Device.Instance.HandlePacket` | sr_router.c:99-497 | the handler on a lent buffer computes `Receive` of the frame in it |
| `Sha1.HashChunks` | sha1.c:71-185 | however a message is cut into inputs, the result is the FIPS PUB 180-1 digest of the whole, and is refused if and only if the message has 2^64 bits or more |
| `Sha1Standard.ConstantsAreRoots` | sha1.c:207-215 | the four round constants are the square roots of 2, 3, 5 and 10 times 2^30, cut off |
| `Sha1Standard.ChooseSelects` | sha1.c:243-253 | the first round function takes each bit from one word or the other as the third says |
| `Sha1Standard.MajorityRules` | sha1.c:266-276 | the third takes each bit that two of the three words have |
| `Sha1Standard.ParityDiffers` | sha1.c:255-287 | the second and fourth take each bit that an odd number of the three words have |
| `Sha1.Context.Reset` | sha1.c:71-85 | an empty message is being read, and nothing has failed |
| `Sha1.Context.Input` | sha1.c:143-185 | the bytes join the message; failure is latched exactly when it was before, when input follows a result, or when the message reaches 2^64 bits |
| `Sha1.Context.AppendByte` | sha1.c:158-184 | one byte more: the index stays below 64, the two halves of the length count the bits, whole blocks are folded |
| `Sha1.Context.ProcessBlock` | sha1.c:207-301 | the four loops compute the standard's compression of the block |
| `Sha1.Context.PadMessage` | sha1.c:326-371 | the digest becomes the standard's digest of the message |
| `Sha1.Context.Result` | sha1.c:104-119 | succeeds exactly when nothing has failed, with the standard's digest, also when asked again |
| `Sha1.LateInputIsRefused` | sha1.c:143-156 | input after the result makes every later result fail until a reset |

## Left out

- Socket traffic with the virtual network server, session opening and authentication messages: sending is appending to a log.
- Packet dumps and all printing: output only.
- Reading the routing table from a file, the command line and instance setup: parsing by library functions that are not part of this model.
- Cryptographic strength of SHA-1: only agreement with the standard is stated.
- Thread creation, the mutex itself, allocation and freeing: a critical section is one step, and lists are sequences.
- The packet thread's use of a request pointer outside the lock: interleavings are of its critical sections, each of which is atomic.
- Several readings of the clock within one event: an event has one clock value, at least 2 and never decreasing.
- Fields of 32 characters for interface names and the truncation to 16 when sending: names are compared as whole strings.
- A big-endian host: 16-bit integers are stored low byte first, as the sources are configured for.
- What malloc leaves in the destination MAC of a new frame: one arbitrary value per configuration stands for it.
- The filter on ARP requests before the packet handler is called (sr_vns_comm.c): it would add an easy precondition only.
- Device.Instance.HandleArpReq: requires that the recursion ends (the function it implements returns), as the source's does not always.
- Device.Instance.SweepReqs: requires the same of the sweep.
- Device.Instance.Timeout: requires the same of the tick.
- Device.Instance.HandlePacket: requires the same of the packet handler.
- Cascade.RankedTerminates: states one direction, since a request can be free of traps while others are not; the exact condition for one request is in Cascade.CascadeTerminatesIff, and for the whole list in Cascade.RankExistsIff.
- Accounting.RunConserves: for runs handled to their end; in the midst of an event, packets whose senders are being told are not yet dropped.
