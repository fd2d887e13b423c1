# A verified model of the user-space router

These modules model the router's C sources in Dafny and prove what its data plane, its upgrade path and
its configuration promise. `dafny verify dfyconfig.toml` checks everything.

**Data plane.** `MemPool` (free stack with malloc fallback), `TaskRing` (bounded ring with draining shutdown),
`ArpTable` (chained hash cache with least-recently-seen eviction) and `PendTable` (intrusive list of pending nodes,
each with a chain of frames) are classes over arrays and index links, each proved against a value: a set of
owned blocks, a sequence of tasks, a map, a queue (`PendSpec`). `Forward` puts them together as `forward.c`
and `arp_proto.c` do, against the decisions and the rewrite of `ForwardSpec`. `DataPlane` is the concurrent
system: the receive loop, the workers and the timer as threads whose steps are the critical sections of the
code, interleaved in any order, with configuration changes, ARP deletions and timeouts set at any point; its steps are
stated with the very functions the classes are proved against. `Locks` models each acquire and release of
every path as a step. What these functions mean is said without them: `Packets` lays IPv4 frames out field by
field and says which of them a rule is about; `Transit` follows such a packet from the receive loop to the wire;
`Resolution` follows a next hop from its ARP request to the answer that is learned; `PendRuns` tells what a
waiting chain holds, and which one gives way, from the operations of a whole run.

**Upload.** `Sha256` holds the standard (FIPS 180-4) as functions and the streaming context proved to compute
it; `Sha256Vectors` has the digests of the standard's examples and where its constants come from. `Upgrade` is the install session over a disk that maps paths to bytes. `RemoteSpec` is the connection as
an automaton fed byte by byte. `Pump` is the receive loop as a value: what a list of cuts makes of a stream,
in terms of the automaton; `Remote` is the code, proved equal to it. `Cuts` is plain arithmetic over the cuts
that says when an upload gets through, and `Delivery` proves it of the loop. `ConfigUpload` says what a
`putconf` makes of the configuration, `Access` what a stream without the password can do, and `EndToEnd` joins
them all, from the wire to the disk.

**Tables and text.** `Net`, `Route`, `Checksum` and `Firewall` are the bit-level helpers, the longest-prefix
table, the Internet checksum and the filter. `Text` has words, numbers and addresses as the C library reads
them; `RuleText`, `RouteText` and `ConfigFile` are the printers, the parsers and the whole file. `Entered` says
what typed rules, routes and sections come to, as far as the packets a typed rule drops.

## What the proofs found in the code

- `arp_tick` subtracts stamps as unsigned numbers and reads the clock before it takes the lock. An entry
  refreshed in between wraps around and is dropped at once; the tick is exact if and only if no stamp is
  later than the clock it read (`ArpTable.AgedIsExact`, `ArpTable.FreshEntryIsDropped`).
- `prefix_len` of a host mask is `clz(0)`, which C leaves open. The model carries the compiler's answer as the
  parameter `clz0`. `route_lookup` finds the longest match in every table if and only if `clz0 >= 32`
  (`Route.LookupIsLongestIff`), and a static route survives being saved if and only if its mask is no host
  mask or `clz0` is 32, and its interface can be named (`RouteText.RouteSurvivesIff`).
- `rx_loop` does not give its block back when `recvfrom` fails (src/main.c:99-103). Each failed receive loses
  one block for good, and nothing else does (`DataPlane.LeaksAreFailures`, `DataPlane.NothingLeaksIff`,
  `DataPlane.LeakingRun`).
- The cuts of the TCP stream are not invisible: more than 8192 buffered bytes of short, complete lines break the
  connection when one `recv` brings them (`Remote.CutsMatter`; exactly when is the contract of
  `Remote.Conn.Turn`, and what a whole connection misses is `Pump.CutsShowIff`), and upload bytes that arrive with their `upgrade` line wait for the next `recv`, so that
  a peer that sends everything at once and closes loses the upload (`Cuts.OneSegmentLoses`,
  `EndToEnd.SentAtOnce`). For all cuts the code acts as the automaton does on a prefix of the stream that, with
  what is left in the buffer, is all that was received (`Remote.Conn.Serve`), and an upload is installed if and
  only if the cuts deliver it, it can be written, and it is good (`EndToEnd.SegmentedUploadIff`,
  `Cuts.DeliversIff`).
- A static route that repeats a connected one is lost by a save and a reload, because `route_add` takes it
  for known (`ConfigFile.StaticsSurviveIff`, `ConfigFile.StaticSurvivesIff`, `ConfigFile.StaticIsDropped`).
- A firewall keyword with a blank in it can be entered but does not survive being saved
  (`RuleText.BlankKeywordIsAccepted`, `RuleText.RuleSurvivesIff`, `ConfigFile.RulesComeBackIff`).
- `config_serialize` answers -1 for a text that is too long only if its last print is the one that passes the end
  of the buffer. If an earlier one does, the room left wraps around and the next print writes outside
  (`ConfigFile.WrittenIff`). 75 rules always fit the 16384 bytes of a save, 128 long ones do not
  (`ConfigFile.SeventyFiveRulesFit`, `ConfigFile.FullTableOverruns`).
- A route without a gateway to a destination that is on no network of the router asks ARP for the destination
  itself, and the answer is never learned, because only addresses on the network of the interface are: the next hop
  of a route can be resolved if and only if it has a gateway on such a network (`Forward.FollowsRoute`,
  `Forward.NextHopLeadsOn`).
- `route add` keeps the destination as it is typed. With bits behind the prefix the route matches no address at
  all (`Entered.HostBitsMatchNothing`).
- `forward_task` compares the total length of a packet with the length of the frame, Ethernet header included, so
  that it may be up to 14 bytes more than there is (`Transit.HeaderIs`).
- A configuration that comes in one segment with its `putconf` line is lost like an upload (`EndToEnd.PutAtOnce`).
- The repository's text speaks of one ARP request per chain and of the lock order ARP before pending. The code
  requests for every unresolved frame (src/forward.c:288-291, `Forward.Forwarder.Dispatch`) and never holds both
  locks (`Locks.ArpAndPendNeverNest`). The model follows the code.

## Assumptions

- Bytes and 8- to 64-bit counters are bounded integers, addresses and masks are bit vectors; sizes that the
  code keeps far below their width are unbounded.
- A block of the pool is named by its index, a block from malloc by a larger number. `out_ifidx` is one byte:
  the model keeps `ifindex % 256`, as the cast does.
- The clock does not go back and stays below the largest 64-bit number.
- Numbers are read as glibc reads them: `strtol` and `strtoul` saturate at 64 bits, `atoi`, `%d` and `%u` keep
  the low 32 bits.
- The outcomes of readlink, fopen, fwrite, fclose, rename and execv, the password, and what malloc does, are
  parameters that may take any value at any time.

## Model

| member | source | states |
|---|---|---|
| MemPool.RoomForMissing | src/mempool.c:74-79 | the guard `g_free_top < MP_COUNT` never discards a block: a free stack that lacks one has room |
| MemPool.Pool.constructor | src/mempool.c:16-34 | all 1024 blocks are free, none is owned |
| MemPool.Pool.Alloc | src/mempool.c:36-64 | fails only when the arena is empty and malloc fails; otherwise hands out a cleared block nobody owned |
| MemPool.Pool.Release | src/mempool.c:66-84 | exactly the given block stops being owned, and the free stack keeps distinct valid indices |
| TaskRing.WindowGrows | src/thread_pool.c:90-93 | storing at the tail appends to the window, wherever the ring of 768 wraps |
| TaskRing.WindowShrinks | src/thread_pool.c:41-43 | advancing the head drops the oldest task |
| TaskRing.Ring.Submit | src/thread_pool.c:81-98 | -2 exactly when full or shutting down, with nothing changed; otherwise it joins the end; accepted = started ++ queued is kept |
| TaskRing.Ring.Next | src/thread_pool.c:30-45 | a worker takes the oldest task; it sleeps only on an empty open ring and leaves only an empty closed one |
| TaskRing.Ring.Shutdown | src/thread_pool.c:100-107 | the flag goes up and no queued task is lost |
| TaskRing.Ring.Drain | src/thread_pool.c:30-49 | after shutdown a worker runs all that was accepted, in order, before it leaves |
| IndexList.LinkedIsAcyclic | src/forward.c:47-56 | a list that follows its links visits no slot twice |
| IndexList.LinkedUnlink | src/forward.c:58-68 | moving one link past a slot removes exactly that slot, the order of the rest kept |
| IndexList.BucketsUnlink | src/arp_table.c:83-94 | unlinking from one bucket leaves it a list and all other buckets alone |
| IndexList.BucketsPush | src/arp_table.c:129-135 | pushing a free slot on one bucket keeps all chains lists and disjoint |
| ArpTable.AgedIsExact | src/arp_table.c:161-177 | the tick keeps exactly the entries within the timeout if and only if no stamp is later than the clock it read |
| ArpTable.FreshEntryCanBeLost | src/arp_table.c:163-169 | an entry stamped after the clock was read fails the age test |
| ArpTable.Table.constructor | src/arp_table.c:40-51 | an empty map with the default timeout |
| ArpTable.Table.SetTimeout | src/arp_table.c:53-57 | timeouts below ten seconds are ignored, the entries stay |
| ArpTable.Table.Find | src/arp_table.c:66-77 | the walk along one bucket finds the slot of the key, or the key is in no slot |
| ArpTable.Table.Lookup | src/arp_table.c:59-80 | hit if and only if the map has the key; the MAC is the map's; only the stamp of a hit changes |
| ArpTable.Table.BucketRemove | src/arp_table.c:83-94 | the slot leaves the chain of its own hash and no other chain changes |
| ArpTable.Table.Insert | src/arp_table.c:96-138 | the map learns the key; when full, an entry of least last_seen makes room |
| ArpTable.Table.OldestSlot | src/arp_table.c:121-125 | the slot found has the smallest stamp of all |
| ArpTable.Table.Delete | src/arp_table.c:140-159 | exactly the key leaves the map |
| ArpTable.Table.Tick | src/arp_table.c:161-177 | the map keeps exactly what the unsigned age test keeps |
| ArpTable.Replay | src/arp_table.c:59-177 | every run of operations on the table is a run of the map |
| ArpTable.RunStaysBounded | src/arp_table.c:23-23 | no run holds more than 256 entries |
| ArpTable.FreshEntryIsDropped | src/arp_table.c:161-177 | the code: an entry just learned is found, and gone after a tick whose clock was read before |
| ArpTable.HitIsLastLearned | src/arp_table.c:59-159 | what a hit returns is the MAC of the last insertion of its key, present ever since |
| ArpTable.InUseStays | src/arp_table.c:59-177 | an entry looked up or learned at some time outlives every tick within the timeout of it and, while an older entry is there, every replacement |
| ArpTable.IdleLeaves | src/arp_table.c:161-177 | an entry nobody used leaves at the first tick more than the timeout after its last use |
| PendSpec.EnqueueKeeps | src/forward.c:103-147 | joining, taking a free slot and evicting keep the queue invariant: used slots and keys unique, chains of 1 to 32 frames, retries from 0 to 3 |
| PendSpec.EnqueueConserves | src/forward.c:103-147 | frames parked before plus the new one are the frames parked after plus those freed |
| PendSpec.EnqueueParksOnce | src/forward.c:103-147 | a frame that joins is parked once, no other becomes parked twice, and what is freed is parked nowhere |
| PendSpec.PopParksOnce | src/forward.c:181-192 | no frame is parked twice after a flush, and none that was handed out is still parked |
| PendSpec.RetryParksOnce | src/forward.c:301-331 | no frame is parked twice after a tick, and none that was freed is still parked |
| PendSpec.PopConserves | src/forward.c:181-192 | a flush moves exactly one chain out of the queue |
| PendSpec.RetryConserves | src/forward.c:301-331 | the tick frees exactly the chains out of retries |
| PendSpec.RetryKeeps | src/forward.c:301-331 | unlinking while walking keeps the queue invariant |
| PendSpec.QueueIsBounded | src/forward.c:36-38 | at most 256 nodes and 256 * 32 frames are parked |
| PendSpec.EnqueueKeepsRetries | src/forward.c:103-144 | later joins, new nodes and evictions never reset the retries of a parked frame |
| PendSpec.RetryAges | src/forward.c:306-322 | a frame that survives a tick had a retry left and has used one |
| PendSpec.UnresolvedHasNoResolved | src/forward.c:333-337 | after the flushes no chain waits for a key that is resolved |
| PendRuns.ChainTells | src/forward.c:103-147 | in every run a waiting chain holds, newest first, the first 32 frames that came for its key since it began; its retries are the ticks since then; its stamp is the clock of the last tick or of the last frame that joined |
| PendRuns.LeastRecentGivesWay | src/forward.c:71-101 | a chain gives way to another key only when 256 wait, with all its frames freed, and no chain was touched less recently |
| PendRuns.Replay | src/forward.c:103-331 | every run of parks, flushes and ticks on the table is such a run |
| PendTable.QueueIsValid | src/forward.c:25-38 | the linked array stands for a valid queue: acyclic, exactly the used slots, counted and disjoint chains |
| PendTable.Table.FindPend | src/forward.c:47-56 | the index of the node of the key, or -1 exactly when there is none |
| PendTable.Table.UnlinkNode | src/forward.c:58-68 | the walk through the moving link removes the node from the list and nothing else |
| PendTable.Table.PickSlot | src/forward.c:76-85 | the first free slot, else a node whose last_sent is least, else none |
| PendTable.Table.AllocPend | src/forward.c:71-101 | a free slot; when full, the victim leaves the queue and all its frames go back to the pool |
| PendTable.Table.Enqueue | src/forward.c:103-147 | all three modes: the frame is parked at the head of its chain, or it and an evicted chain are freed; the pool owns exactly the rest |
| PendTable.Table.Pop | src/forward.c:181-192 | the chain of the key, as a list of distinct owned blocks, leaves the queue |
| PendTable.Table.RetryOrDrop | src/forward.c:303-330 | one turn of the walk: the node gets a retry or leaves with its frames freed, and the walk goes on where it should |
| PendTable.Table.Retry | src/forward.c:301-331 | the whole walk equals the value function, and the keys to request are those of the nodes left, in order |
| Checksum.FoldCongruent | src/packet.c:22-23 | folding ends with a value congruent modulo 65535 |
| Checksum.SumFits | src/packet.c:13-21 | the sum of any buffer up to 131072 bytes does not overflow 32 bits |
| Checksum.IpChecksum | src/packet.c:11-25 | the loops compute the complement of the folded word sum of every buffer, odd lengths included |
| Checksum.IpChecksumRecompute | src/packet.c:27-34 | only the two checksum bytes change, and headers shorter than 12 bytes are left alone |
| Checksum.RecomputedVerifies | src/packet.c:27-34 | the checksum over a recomputed header is 0 (section 1 of RFC 1071, section 3.1 of RFC 791) |
| Checksum.ChecksumComplements | src/packet.c:11-25 | the bytes, read as one number, and their checksum add up to a multiple of 65535 |
| Checksum.Examples | src/packet.c:11-25 | the example of section 3 of RFC 1071, and a single odd byte |
| Net.MaskIs | src/utils.c:69-74 | the shift gives the mask of that many leading ones |
| Net.PrefixLenOfMask | src/utils.c:69-81 | prefix_len inverts mask_from_prefix; a host mask gives what the compiler makes of clz(0) |
| Net.NetsNest | src/route.c:121-124 | of two matching networks the longer lies inside the shorter |
| Net.CheckBroadcast | src/utils.c:131-143 | true exactly for 255.255.255.255 and the directed broadcasts of the interfaces |
| Net.BroadcastIs | src/utils.c:138-139 | the directed broadcast of a network is its one address with all host bits set |
| Net.MulticastIs | src/utils.c:126-129 | 224.0.0.0 to 239.255.255.255 and nothing else |
| Net.SameNetwork | src/utils.c:69-74 | two addresses agree under the mask of a length if and only if they agree in as many leading bits |
| Route.RederiveKeepsStatics | src/route.c:37-61 | rebuilding the connected routes keeps every static one in order and is idempotent |
| Route.ConnectedIff | src/route.c:46-57 | there is a connected route for exactly the interfaces with an address, an index and a mask: to their network, without a gateway |
| Route.LookupIsLongestIff | src/route.c:114-130 | over contiguous masks the lookup is the first longest match in every table if and only if clz(0) is at least 32 |
| Route.HostRouteLoses | src/route.c:120-126 | the table in which a smaller clz(0) makes a host route lose |
| Route.LongestIsInnermost | src/route.c:114-130 | the range of the route found lies in the range of every other match |
| Route.Table.Keep | src/route.c:28-32 | compaction in place keeps exactly the routes of one kind, in order |
| Route.Table.ClearStatic | src/route.c:24-34 | only the connected routes stay |
| Route.Table.DeriveConnected | src/route.c:37-61 | statics, then one route per configured interface, as far as 64 entries go |
| Route.Table.Add | src/route.c:63-91 | appended unless known; -1 exactly when the table is full and the route new |
| Route.Table.Del | src/route.c:93-112 | exactly the indexed route goes; connected ones and bad indices are refused |
| Route.Table.Lookup | src/route.c:114-130 | the index of the first match whose prefix_len is largest, -1 when none beats -1 |
| Firewall.VerdictIsFirstMatch | src/firewall.c:133-146 | the action of the least-index matching rule, else allow |
| Firewall.FindBytes | src/utils.c:109-124 | the least offset at which the needle occurs, -1 exactly when it does not occur |
| Firewall.KeywordMatch | src/firewall.c:105-129 | holds exactly when the keyword occurs in the located payload of a first fragment |
| Firewall.RuleMatch | src/firewall.c:70-131 | reads only inside the frame, and agrees with the predicate on bytes for every byte string; which packets those are is Packets.MatchesIffConcerns |
| Firewall.Table.Add | src/firewall.c:30-45 | appended, or -1 when 128 rules are there |
| Firewall.Table.Del | src/firewall.c:47-62 | exactly the indexed rule goes |
| Firewall.Table.Check | src/firewall.c:133-146 | the loop returns the verdict of the first matching rule |
| Packets.MatchesIffConcerns | src/firewall.c:70-131 | on the frame of any packet, with options, TCP, UDP or any other body: a rule matches if and only if source, destination, protocol and ports fit the fields and the keyword occurs in the payload of a first fragment |
| Packets.CheckPacket | src/firewall.c:133-146 | the code on such a frame: the action of the first rule that is about the packet, else allow |
| Packets.CheckOne | src/firewall.c:133-146 | with one rule in the table, its action exactly for the packets it is about |
| ForwardSpec.RewriteIsFaithful | src/forward.c:160-164 | a sent frame is the received one but for the MACs, a TTL exactly one less and at least 1, and a checksum that verifies |
| ForwardSpec.ForUsIs | src/forward.c:245-251 | not forwarded is exactly what goes to an address of the router, to 255.255.255.255, to the last address of a network of the router or to 224.0.0.0 to 239.255.255.255 |
| ForwardSpec.OnLinkIs | src/forward.c:254-262 | an interface reaches what shares the leading bits of its address |
| ForwardSpec.ConnectedReaches | src/route.c:50-54 | the connected route of an interface matches exactly what the interface reaches |
| Transit.RoutedByType | src/main.c:110-136 | a frame goes by its type: 0x0806 to the responder, 0x0800 to the workers, what is short, our own or anything else is freed |
| Transit.RequestIsHeard | src/main.c:123-127 | the request that goes out is one the receive loop hands to the responder |
| Transit.HeaderIs | src/forward.c:215-236 | the header test passes exactly the packets whose total length holds their header and is at most the length of the frame |
| Transit.AdmittedIff | src/forward.c:215-251 | on the frame of any packet: let through if and only if its lengths fit, the first rule that is about it allows it, and it is not for the router itself |
| Transit.RewrittenIsOneHop | src/forward.c:149-171 | what is sent for the frame of a packet is the frame of the same packet between the new MACs with one hop less to live, and a header whose checksum verifies |
| Transit.Forwards | src/forward.c:201-292 | the code on any packet: it goes on if and only if it passes, may take another hop and has a way; to a next hop that leads on; and with its MAC cached the wire gets the packet one hop further and nothing else |
| Forward.ReplyIsArp | src/arp_proto.c:24-38 | a request rewritten in place is a well-formed reply from our interface to the requester |
| Forward.Forwarder.ForwardSend | src/forward.c:150-171 | the owner's block is rewritten and sent if its interface exists, and freed once either way |
| Forward.Forwarder.SendChain | src/forward.c:194-198 | every frame of the chain is handed to forward_send once, in order, and freed |
| Forward.Forwarder.FlushPending | src/forward.c:173-199 | resolved: the chain leaves and all of it goes on the wire in order, to the MAC of the cache; unresolved: nothing happens; no other parked frame is touched |
| Forward.Forwarder.ArpRequest | src/arp_proto.c:46-80 | exactly one request for the key goes out by its interface, from a block that is back in the pool; it stays away only if the interface is gone or no block is left; what the request asks is Resolution.RequestAsks |
| Forward.Forwarder.PendTick | src/forward.c:294-338 | uninterrupted: for each node left, in order, its request and, if its key is resolved, its frames, once, with the MAC of the cache, and nothing else, go on the wire; no surviving chain has a resolved key; with a free block at the start no request is missing |
| Forward.Forwarder.Admit | src/forward.c:215-251 | header, filter and destination tests as declared |
| Forward.Forwarder.NextHop | src/forward.c:253-273 | a destination on a network of the router is its own next hop, by the first such interface; else the next hop is that of the longest matching route: its interface, its gateway if it has one, never 0; none if and only if there is neither |
| Forward.NextHopLeadsOn | src/forward.c:253-273 | whatever is decided leads on: on link to the destination itself, else to the gateway of the longest matching route, on whose network the answer is learned if and only if it lies there |
| Forward.RouteFound | src/forward.c:264-272 | off link, a next hop is found if and only if some route matches |
| Resolution.DefaultRoute | src/forward.c:264-272 | eth0 192.168.1.1/24 and a default route: the next hop of 8.8.8.8 is 192.168.1.254, and the request on the wire asks for it |
| Resolution.RequestAsks | src/arp_proto.c:58-72 | the request is broadcast, in the name and with the MAC of the interface, and asks for the address of the key |
| Resolution.OwnerAnswers | src/arp_proto.c:20-44 | the owner of the address answers it with a reply whose sender is the key and whose sender MAC is its own |
| Resolution.TakenIff | src/arp_proto.c:91-97 | of all ARP packets exactly those for Ethernet and IPv4 with addresses of 6 and 4 bytes are taken |
| Resolution.GetsThrough | src/forward.c:283-338 | the code: a frame parked for an unresolved next hop goes out to the MAC of its owner once the request has been answered and a tick has come |
| Resolution.WhoAnswers | src/arp_proto.c:113-119 | an owner answers for itself; for other addresses nobody does without proxy ARP, and with it the interface of the longest matching route if that has no gateway |
| Forward.Forwarder.ForwardTask | src/forward.c:201-292 | the frame is freed, sent with the MAC of its next hop, or parked and its next hop asked for, exactly as declared; the wire gets that packet or request and nothing else; the block has left the caller's hands once |
| Forward.Forwarder.Dispatch | src/forward.c:283-291 | marked with its next hop, then sent on a hit, else parked and the request put on the wire, unless no block is left for it |
| Forward.Forwarder.Learn | src/arp_proto.c:102-105 | learned only when the sender is on the subnet of the interface it came in by |
| Forward.Forwarder.Responder | src/arp_proto.c:113-119 | the owner of the address answers, else by proxy the exit of the longest route if it has no gateway, else nobody |
| Forward.Forwarder.ArpHandleFrame | src/arp_proto.c:82-125 | the block is consumed; only a valid frame from its own subnet teaches, the MAC it carries; a request is answered if and only if somebody answers for its target; the wire gets that reply and then the frames that waited for the sender, with its MAC |
| Forward.Forwarder.Answer | src/arp_proto.c:113-123 | the reply goes out first, in the name of the right interface; then the requester's chain leaves and is sent, and nothing else |
| DataPlane.GuardHolds | src/mempool.c:77-78 | in every reachable state a thread that frees a block finds room for it on the stack |
| DataPlane.StepKeepsPartition | src/forward.c:103-292 | every step of every thread keeps each block in exactly one place |
| DataPlane.OnePlace | src/main.c:83-138 | a block is free, queued, parked, lost by a failed receive, or in the hands of one thread, and only one of these |
| DataPlane.StepKeepsFaithful | src/forward.c:149-171 | every step keeps queued frames as received, parked ones validated and marked with their node's key, and sent ones faithful and on the interface of their next hop |
| DataPlane.StepKeepsRing | src/thread_pool.c:27-98 | accepted = started ++ queued under every interleaving; a worker is gone only after shutdown with the ring empty |
| DataPlane.StepKeepsCache | src/arp_table.c:59-138 | every step keeps the cache within 256 entries, and every send and every sent frame goes to a MAC that a lookup found for its next hop |
| DataPlane.NextKeepsInv | src/main.c:69-138 | the whole invariant is kept by every step of every thread and of the control plane |
| DataPlane.RunsStart | src/main.c:140-201 | runs exist, from any configuration and for any number of workers |
| DataPlane.ReachableStates | src/forward.c:201-338 | in every reachable state of every run: partition, ring order, at most 256 cached entries, 256 chains and 8192 frames parked, every sent frame faithful |
| DataPlane.SeenWasCached | src/arp_table.c:59-80 | what a lookup ever found was in the cache at an earlier state of the run |
| DataPlane.SentToCachedMac | src/forward.c:150-199 | every forwarded frame went to the MAC that the cache had, at an earlier state, for exactly its next hop |
| DataPlane.ResidenceIsBounded | src/forward.c:301-330 | no frame stays parked over more than three ticks, whatever joins, flushes and evictions happen |
| DataPlane.LeavesToBeSentOrFreed | src/forward.c:173-199 | a frame that leaves the queue is in the hands of the thread that took it, about to be sent or freed |
| DataPlane.ParkedFramesLeave | src/forward.c:294-338 | by the fourth tick every parked frame has left to be sent or freed |
| DataPlane.DisposalGoesOn | src/forward.c:150-171 | a thread that has a frame to dispose of keeps it until mp_free has run on it, whatever the others do |
| DataPlane.ParkedFramesAreFreed | src/forward.c:294-338 | if pend_tick has run four times and no thread has the frame in hand any more, mp_free has run on its block in between |
| DataPlane.NoMissedResolution | src/forward.c:294-338 | no resolution is missed in any run: if the walk of a tick leaves a chain of a key and the key stays in the cache, then by the time the thread is done with the key it has taken the chain in one step, after which nothing waits for the key |
| DataPlane.LeaksAreFailures | src/main.c:97-103 | in every run the blocks lost are as many as the receives that failed |
| DataPlane.NothingLeaksIff | src/main.c:97-103 | no block is lost if and only if no receive failed |
| DataPlane.LeakingRun | src/main.c:97-103 | from any start a run of two steps loses the block on top of the free stack |
| Locks.PathsAreDisciplined | src/forward.c:103-147 | every path of the receive loop, the workers and the timer takes locks by strictly growing rank and releases them all |
| Locks.RunIsInv | src/mempool.c:40-45 | in every run no two threads hold a lock unless both only read |
| Locks.NoDeadlock | src/forward.c:301-331 | in every reachable state with a thread in the middle of its path some thread can move |
| Locks.ArpAndPendNeverNest | src/forward.c:173-192 | no thread ever holds the ARP and the pending lock together |
| Sha256.PaddingIsStandard | src/sha256.c:111-120 | padding as in section 5.1.1 of FIPS 180-4, for every message below 2^64 bits |
| Sha256.OneMoreBlock | src/sha256.c:98-101 | hashing a block after others is one more compression |
| Sha256.LastBlocks | src/sha256.c:106-121 | the padded message ends in one block or two, depending on 56 buffered bytes |
| Sha256.LengthByte | src/sha256.c:119-120 | the shifted bytes are the big-endian length |
| Sha256.Context.Init | src/sha256.c:79-84 | the initial hash value of section 5.3.3, nothing hashed |
| Sha256.Context.Expand | src/sha256.c:60-63 | the schedule of section 6.2.2 by the mixing functions that the transform and the digests of Sha256Vectors use |
| Sha256.Context.Transform | src/sha256.c:55-77 | 64 rounds over local variables are the compression of section 6.2.2 |
| Sha256.Context.Update | src/sha256.c:86-104 | the context holds the message with the data appended: whole blocks in the state, the tail in the buffer |
| Sha256.Context.Final | src/sha256.c:106-127 | the digest of all that was appended, both padding cases, and a fresh context |
| Sha256.HashPieces | src/sha256.c:79-127 | for every message and every split into update calls the result is Digest, whose values and constants Sha256Vectors pins |
| Sha256Vectors.AbcDigest | src/sha256.c:49-77 | the digest of "abc" is ba7816bf 8f01cfea 414140de 5dae2223 b00361a3 96177a9c b410ff61 f20015ad |
| Sha256Vectors.FiftySixDigest | src/sha256.c:106-127 | the digest of the 56 bytes that take two blocks |
| Sha256Vectors.AbcInPieces | src/sha256.c:79-127 | the streaming code gives that digest of "abc", wherever it is cut |
| Sha256Vectors.FiftySixInPieces | src/sha256.c:79-127 | and the other, wherever those are cut |
| Sha256Vectors.ConstantsAreCubeRoots | src/sha256.c:17-34 | constant t is the first 32 bits of the fraction of the cube root of the t-th prime (section 4.2.2 of FIPS 180-4) |
| Sha256Vectors.InitialIsSquareRoots | src/sha256.c:36-39 | the initial hash value is those of the square roots of the first eight primes (section 5.3.3) |
| Sha256Vectors.AbcSpelled | src/upgrade.c:38-53 | hex_to_bytes reads the usual spelling of the digest of "abc" as that digest |
| Upgrade.HexRoundTrip | src/sha256.c:129-135 | printed digests are read back |
| Upgrade.DigitsAre | src/upgrade.c:30-36 | a digit stands for its place among the sixteen, in either case; no other character is a digit |
| Upgrade.HexIsUnique | src/upgrade.c:38-53 | a text spells at most one digest |
| Upgrade.HexToBytes | src/upgrade.c:38-53 | the bytes the text spells, or nothing when it does not spell exactly n |
| Upgrade.BegunIsWhole | src/upgrade.c:55-105 | a session opens exactly under the stated conditions, with an empty new file; nothing else on the disk changes |
| Upgrade.WroteIsWhole | src/upgrade.c:107-129 | a write extends the new file by its bytes, or is refused whole when it passes the announced size |
| Upgrade.FinishInstallsIff | src/upgrade.c:141-199 | installs exactly when size, ELF magic, digest, close and rename are good; otherwise the session closes and every other file is untouched |
| Upgrade.ElfIs | src/upgrade.c:157-162 | the magic is 0x7f and the letters ELF |
| Upgrade.AbortRestores | src/upgrade.c:213-219 | giving up leaves every file but the new one as it was, and no other file appears |
| Upgrade.Session.Begin | src/upgrade.c:55-105 | the code opens sessions as the value function does, failures included |
| Upgrade.Session.Write | src/upgrade.c:107-129 | the code writes, remembers the first four bytes and hashes as the value function does |
| Upgrade.Session.Finish | src/upgrade.c:141-199 | the code checks and installs as the value function does |
| Upgrade.Session.Abort | src/upgrade.c:213-219 | the code gives up as the value function does |
| RemoteSpec.LineFolds | src/remote.c:155-176 | the automaton handles a complete line as one command |
| RemoteSpec.PutTwice | src/remote.c:179-194 | two writes that work are one |
| RemoteSpec.RawFolds | src/remote.c:233-239 | raw bytes that do not end a transfer go through as one write |
| RemoteSpec.RawLands | src/remote.c:240-245 | the bytes that end a transfer go through as one write and its finish, taking exactly the announced count |
| RemoteSpec.RawBreaks | src/remote.c:235-236 | a write that fails part way leaves, once cleaned up, what the automaton leaves |
| RemoteSpec.FedKeepsTidy | src/remote.c:224-255 | bytes still due always match the session: the announced size less what was received |
| Pump.LinesEatenLeaves | src/remote.c:155-176 | process_lines eats whole lines, and stops only at `exit`, at the start of raw bytes, or where no newline is left |
| Pump.TurnedLeaves | src/remote.c:232-254 | after a turn that goes on there is room for the next recv and no newline waits, unless an order was just taken; a turn that breaks has a reason: the automaton stopped, or too many bytes |
| Pump.PumpedIsFramed | src/remote.c:224-255 | for every stream and every list of cuts: used ++ buffered = received, and the automaton has taken exactly what was used |
| Pump.PumpedIsComplete | src/remote.c:224-230 | a loop that still runs when the cuts are over has received everything, or a byte at least for each cut |
| Pump.CutsShowIff | src/remote.c:224-255 | for every stream and all cuts: the connection is as if the automaton had taken the whole stream if and only if what the loop left of it has nothing to handle in it; a loop that received everything misses something exactly when it broke on more than 8192 bytes with a line among them, or holds raw bytes that came along with their order |
| Remote.TerminatedReads | src/remote.c:161-166 | the NULs written over newline and return cut the text of the line |
| Remote.Conn.HandleLine | src/remote.c:58-151 | every branch of the command handler has the effect the automaton gives it |
| Remote.Conn.FindNewline | src/remote.c:158-160 | the first newline of the buffer, or none |
| Remote.Conn.Drop | src/remote.c:168-172 | what is left moves to the front unchanged |
| Remote.Conn.ProcessLines | src/remote.c:155-176 | all complete lines are handled in order, up to `exit` or the start of raw bytes; bytes eaten ++ bytes left = bytes there |
| Remote.Conn.BinWrite | src/remote.c:179-194 | routed to the configuration file or the session, as the mode says |
| Remote.Conn.BinFinish | src/remote.c:197-222 | landing as the automaton does, execv as the end of the run; what a landing installs is ConfigUpload.PutInstallsIff and EndToEnd.UploadInstallsIff |
| Remote.Conn.TakeRaw | src/remote.c:233-239 | the smaller of what is buffered and what is due is taken, no byte more |
| Remote.Conn.Turn | src/remote.c:225-254 | after every recv the state is the automaton's after the bytes eaten; outside a transfer the turn breaks exactly when more than 8192 bytes are buffered; room is left for the next recv |
| Remote.Conn.Serve | src/remote.c:224-274 | for every stream and every way recv cuts it: state, commands and outcome are the automaton's on the bytes used, bytes used ++ bytes buffered are all bytes received, and a loop that was not stopped by the automaton, nor by more than 8192 bytes outside a transfer, has received everything or at least a byte for each cut |
| Remote.CutsMatter | src/remote.c:249-252 | the same stream breaks in one segment and not in two |
| Cuts.OneSegmentLoses | src/remote.c:232-246 | an order that comes with all its bytes in one recv never gets through, whatever comes after |
| Cuts.DeliversIff | src/remote.c:224-254 | segments of at most 8192 bytes deliver an upload if and only if they are all of it, the newline does not come with the last of them, and at most 8192 bytes are there when it comes |
| Delivery.DeliveredIff | src/remote.c:224-254 | the loop hands the whole of an order and its bytes to the automaton if and only if the arithmetic over the cuts says so, for cuts of any size |
| EndToEnd.UploadInstallsIff | src/upgrade.c:141-199 | an accepted `upgrade size sha` line followed by its bytes installs exactly those bytes if and only if they are good; else nothing but the temporary file changed |
| EndToEnd.OnlyUploadsInstall | src/remote.c:155-255 | whatever bytes come, a file that is not `<link>.new` for a link that readlink gives ends as it was, or it is the executable that readlink gave at an `upgrade` line and holds the bytes after that line, of the announced length, ELF, with the announced digest |
| EndToEnd.SegmentedUploadIff | src/remote.c:224-274 | the receive loop on an order and its bytes, for all cuts: installed if and only if delivered, written and good; in every other case no file but the temporary one changes |
| EndToEnd.LaterUploadIff | src/remote.c:224-274 | the same for an order behind other traffic, when the client waited for its answer |
| EndToEnd.UploadAmong | src/remote.c:224-274 | an upload between any other traffic, however all of it is cut: a loop that received everything ends as if the automaton had taken the whole stream if and only if it neither broke on its limit nor holds raw bytes; there the upload installs its bytes if and only if they are good |
| ConfigUpload.PutInstallsIff | src/remote.c:197-210 | an accepted `putconf size` line followed by its bytes ends with exactly those bytes as the configuration if and only if all can be written and the rename works; else the configuration is what it was; refused at its end, it leaves no temporary file |
| ConfigUpload.OnlyPutsInstall | src/remote.c:103-118 | whatever bytes come, the configuration ends as it was or as the bytes behind a `putconf` line that announced as many; no temporary file is left |
| ConfigUpload.SegmentedPutIff | src/remote.c:224-274 | the receive loop on an order and its bytes, for all cuts: installed if and only if delivered, written and renamed; in every other case nothing changes |
| ConfigUpload.LaterPutIff | src/remote.c:224-274 | the same behind other traffic, when the client waited for its answer |
| Access.AuthorizedIff | src/remote.c:76-90 | a connection is authorized if and only if some line of the stream gave the password of its moment, and until then it changes nothing, takes no raw bytes and stays open |
| Access.StrangersChangeNothing | src/remote.c:87-90 | without the password the files and the configuration are what they were |
| Access.ClosesIff | src/remote.c:136-150 | only an authorized `exit` closes the connection |
| Access.ReturnIsDropped | src/remote.c:161-166 | a return before the newline does not belong to the line |
| EndToEnd.Connection | src/remote.c:224-274 | the code, for every stream, segmentation and behaviour of the disk: a file other than those temporary ones ends as it was or as such an upload; an order that is taken up with its bytes behind it installs them if and only if the cuts deliver them, they can be written, and they are good, and else only the temporary file is touched; the configuration ends as it was or as the bytes behind a `putconf` line, and such an order installs its bytes if and only if the cuts deliver them, they can be written and the rename works; no temporary file of a putconf is left; a stream without the password changes nothing |
| EndToEnd.SentAtOnce | src/remote.c:232-246 | with everything working, an executable sent in one segment with its order is lost, and installed when a recv comes between |
| EndToEnd.PutAtOnce | src/remote.c:232-246 | the same for a configuration: lost in one segment with its order, installed when a recv comes between |
| Text.TokSplit | src/utils.c:146-166 | in place: each word stands as a C string at the offset returned for it, the last of max being all that is left, and nothing behind the string is touched |
| Text.WordsOfLine | src/utils.c:146-166 | splitting a line gives back the words it was made of |
| Text.ReadDec | src/config.c:80-82 | printed numbers are read back, whatever follows |
| Text.AtoiOfDec | src/firewall.c:245-253 | atoi of a printed number is the number |
| Text.IpRoundTrip | src/utils.c:9-29 | printed addresses are read back |
| Entered.Written | src/utils.c:9-29 | numbers are decimal and addresses are written from their first byte on: 192.168.1.254 |
| Entered.OutOfRange | src/utils.c:9-29 | ports end at 65535, prefix lengths at 32 and the bytes of an address at 255 |
| RuleText.NetworkRoundTrip | src/config.c:46-52 | printed networks, /0 to /32, are read back with their mask |
| RuleText.ParseRule | src/firewall.c:194-277 | the token loop parses as the recursive grammar does, errors included |
| RuleText.ParsedIsOk | src/firewall.c:194-277 | every accepted rule has contiguous masks, addresses inside them, real ports, a known protocol and a short keyword |
| RuleText.NormalMatches | src/firewall.c:84-87 | addresses behind a mask of 0 play no part in matching |
| RuleText.RuleToLine | src/config.c:54-86 | the printer writes the words of the rule with one space between them |
| RuleText.RuleFits | src/config.c:108-113 | a printed rule has at most 155 characters and 12 words, so the buffers of 256 and 16 are enough |
| RuleText.RuleLineFits | src/config.c:108-113 | the same length with blanks in the keyword |
| RuleText.RuleRoundTrip | src/config.c:251-269 | every accepted rule without a blank in its keyword is printed, split and parsed into a rule that acts alike on exactly the same frames |
| RuleText.RuleSurvivesIff | src/config.c:54-86 | a rule survives printing and parsing if and only if its keyword has no blank |
| RuleText.BlankKeywordIsAccepted | src/config.c:251-269 | every keyword of up to 63 characters can be entered, blanks and all, behind 15 words; the rule so entered survives a save if and only if it has no blank |
| Entered.RuleReads | src/firewall.c:194-277 | for all networks, protocols, ports and keywords: the words of a rule that says everything are read as that rule |
| Entered.DropsHost | src/firewall.c:194-277 | the code: a rule typed with the address of a host drops the packets of that host and no others |
| Entered.DropsPort | src/firewall.c:194-277 | the code: a rule typed with tcp and a port drops what goes to that port and nothing else |
| RouteText.ParseRoute | src/config.c:271-303 | the option loop parses as the recursive grammar does, errors included |
| RouteText.RouteFits | src/config.c:134-140 | a printed route, whatever its mask, interface and clz(0), has at most five words and 67 characters |
| RouteText.RouteRoundTrip | src/config.c:117-142 | a static route with a contiguous mask, clz(0) being 32 if it is a host mask, on an interface whose name names no other index, is printed, split and parsed into itself |
| RouteText.RouteSurvivesIff | src/config.c:117-142 | a static route with a contiguous mask is read back as itself if and only if clz(0) is 32 or the mask no host mask, and its interface has a name that names no other index |
| RouteText.ReadIsSavable | src/config.c:271-303 | with unique interface indices, whatever a printed route is read as is itself read back as it is: nothing that cannot be written down comes out of a saved file |
| Entered.RouteReads | src/config.c:271-303 | a typed route by way of a gateway is that route |
| Entered.DirectRouteReads | src/config.c:271-303 | and so is one without a gateway |
| Entered.HostBitsMatchNothing | src/route.c:121-121 | a route matches some address if and only if its destination has no bits behind its mask |
| ConfigFile.LinesOfText | src/config.c:327-332 | what was written line by line is read by fgets line by line |
| ConfigFile.SavedLoads | src/config.c:88-143 | a saved file loads as what the parsers make of each printed line: the same rules in the same order if and only if no keyword has a blank, and the routes added one by one to the connected ones, each as it was if it can be written |
| ConfigFile.RulesComeBackIff | src/config.c:105-115 | the printed rules of a table are read back as the table if and only if no keyword has a blank, each line being at most one rule |
| ConfigFile.FilterSurvives | src/config.c:105-115 | after a save and a reload the filter decides about every frame as before, whatever the routes |
| ConfigFile.StaticsSurviveIff | src/config.c:117-142 | save, reload and derive keep exactly the statics that repeat no connected route, in order, connected ones behind, within 64 entries, whatever the keywords of the rules; all of them if and only if none repeats one |
| ConfigFile.StaticSurvivesIff | src/config.c:117-142 | one static among any others, some of which cannot be written: it is there after save, reload and derive if and only if it is read back and repeats no connected route; with unique interface indices, if and only if it can be written and repeats none |
| ConfigFile.StaticCanBeLost | src/route.c:67-74 | a reachable table whose static route is lost |
| ConfigFile.StaticIsDropped | src/config.c:305-357 | the code: a static route added, saved, loaded and rebuilt is gone |
| ConfigFile.RunIsDistinct | src/route.c:24-112 | no sequence of table operations overfills the table or makes a static route twice |
| ConfigFile.Serialize | src/config.c:88-143 | the prints go into the buffer one by one: the text, -1, or bytes outside the buffer, as the lengths decide |
| ConfigFile.WrittenIff | src/config.c:88-143 | the text if and only if it is shorter than the buffer; -1 if and only if only the last print passes the end; bytes outside if and only if an earlier one does |
| ConfigFile.TablesFit | src/config.c:105-142 | 156 bytes for a rule, 68 for a static route and 73 for the headers are enough |
| ConfigFile.SeventyFiveRulesFit | src/config.c:145-160 | a save always works with up to 75 rules, the route table full and the keys as long as they come |
| ConfigFile.FullTableOverruns | src/config.c:105-115 | 128 lines that the parser takes make a save write outside its buffer |
| ConfigFile.LoadFile | src/config.c:305-357 | the tables become what the lines of all the bytes say that the reads return; without a file the rules and the statics go |
| ConfigFile.LoadOne | src/config.c:327-350 | one line acts on the table of its section only |
| Entered.SectionsTake | src/config.c:327-350 | lines under [firewall] are rules, lines under [route] routes, lines under [filter] addresses to drop |
| Entered.RemarksSayNothing | src/config.c:335-337 | lines that start with # and empty lines change nothing |
| Entered.IndentsSayNothing | src/config.c:335-335 | blanks in front of a line make no difference |
| Entered.FilterReads | src/config.c:230-249 | `drop ip` and a network, the old way, is a rule that drops its packets |

## Left out

- Event counters (g_rx, g_tx, g_drop and the others): they are not conserved quantities in the code.
- Raw sockets, ioctl, interface enumeration, sendto: the interfaces are a given sequence, received bytes are any bytes, sending appends to a list.
- Terminal commands, the UDP service, the show formatters, usage text and logging; the log lock is kept, as a rank in Locks.
- Thread creation and joining, condition variables beyond "sleep and look again", memory-order effects of the unlocked reads of table sizes.
- The values of the [router] section (numeric keys, host name, password) and config_save's file handling: they are lines that touch neither table, and a save is its text.
- What the bytes written outside the buffer of config_serialize hit: Serialize says exactly when there are such bytes.
- Two connections at once: an upgrade session has one connection, and its abort cannot meet another connection's session.
- Blocks that stay in stdio buffers until fclose, chmod and fsync: a file is the bytes written to it.
- Whether a received frame is one of ours (its packet type and its source MAC) is a parameter of DataPlane.Route.
- The tables that a putconf reloads: a connection ends at the file, and what config_load makes of a file is ConfigFile.LoadFile.
- getconf, the reply texts of the connection and what ordinary commands do to the tables; `exit` and the transfers are modelled.
- The password is read from a configuration file but not written to one; it is a key of [router], and those are outside the model.
- DataPlane.ReachableStates: forward_task sees one configuration in its filter and another in its route lookup, as the two locks allow; the unlocked walks over the interfaces inside each are one look.
- DataPlane.ParkedFramesLeave: counts walks of pend_tick that happen; that the timer thread keeps running is the scheduler's part.
- legacy/: an older version that does not build.
