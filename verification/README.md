# The packet-burst engine of l3fwd, in Dafny

`l3fwd` receives packets in bursts, gives each packet a destination port, finishes its
headers, groups the burst by destination, buffers per port, transmits, and counts what
happened. Most steps exist twice: a fast form over four or eight packets and a simple form
over one. This project models that engine and proves that the fast forms mean what the simple
ones say, and that over whole runs no packet is lost, duplicated, reordered or miscounted.
`l2fwd`'s port pairing and core assignment, and `l3fwd`'s queue assignment, are modelled too:
they are what keeps one core's state out of another core's hands.

What is proved, in short:

- **Grouping is exact.** The table-driven, overlapping, in-place run-length step keeps the
  invariant "every run head has its run's length, the live counter is the last run's" on every
  block, the fake last element and its correction included, and the result agrees with folding
  the scalar step over the burst. The scalar step alone is right, whatever the slots held, if
  and only if the first destination is not `BAD_PORT - 1`.
- **The send walk** visits exactly the run heads and so tiles the burst.
- **Delivery.** For an arbitrary NIC, per port, what was offered followed by what is buffered
  grows by exactly the port's packets in arrival order; every packet is accepted, freed or
  buffered, exactly once. Over whole runs of `lpm_main_loop`, on the vector path and on the
  scalar path, rx = tx + dropped + buffered for the 64-bit counters, every received buffer is
  in exactly one place once, and at every drain point of the run, with the state and the
  counters of that moment, rx = tx + dropped if the drained ports cover the destinations.
- **Many cores.** For any schedule of the cores' turns each core's run keeps its laws, and for
  any interleaving of their transmit calls each queue of a port holds exactly what the NIC
  accepted from one core for that port, a subsequence in arrival order of that core's packets.
  From the queue parameters on the command line to the rings: setup refuses exactly the
  unacceptable parameters, and after it every destination is among the ports its core drains.
- **Decisions by bytes.** What happens to a frame is also stated from its bytes and the tables
  alone, at the header offsets of RFC 791 and RFC 8200 and apart from the code's own constants:
  for the vector path, the scalar path, FIB and exact match.
- **Headers.** A packet leaves with the same bytes and destination wherever it falls in the
  burst. The incremental checksum update keeps a valid header valid if and only if the TTL is
  at least 1 and the stored checksum is not 0xFFFF. The scalar path sends the same bytes if
  and only if it did not have to check a nonzero IPv4 checksum in software, and to the same
  port exactly under a stated condition on the header, the checks and the hop; after a software
  check the header it sends is valid only in the cases named by an exact condition. That check
  passes exactly the headers that verify and do not store 0xFFFF.
- **Classification.** Four-wide LPM equals scalar LPM if and only if each hop of a vector
  block survives signed saturation; eight-wide exact match equals the scalar form for types
  the program's own parser writes, and for arbitrary types if and only if each packet's type
  fits its block's path; a packet's masked key is a rule's key if and only if their five-tuples
  are equal, and the last such rule with an enabled port decides; the FIB and ACL split and
  merge give each packet its own answer, and on the same routes FIB and LPM agree on all
  packets if and only if no hop collides with the FIB's default hop; an ACL verdict is that of the first matching line of
  the rule file, and the count of `BAD_PORT` hops is right for all bursts if and only if the
  rule files meet a condition on their route lines.
- **Reads past the end.** Exactly which burst lengths make the look-ahead of the LPM
  classification read burst slots it was not given, and exactly which array sizes the
  four-wide scan of an event vector can leave.
- **Assignment.** When setup succeeds each receive queue is polled by one core once and no two
  cores share a transmit queue; `l2fwd`'s pairing is an involution and its first fit fails if
  and only if the ports outnumber the places.

## How it is organised

| file | what |
|---|---|
| `Words.dfy`, `Sse.dfy` | machine words, shared constants, the SSE intrinsics on eight 16-bit lanes |
| `Wire.dfy`, `PortMask.dfy` | the fields of a frame at their offsets in plain numbers; the bits of the port mask |
| `PktGroup.dfy`, `FinishBurst.dfy`, `SendMulti.dfy` | `port_groupx4` and `GROUP_PORT_STEP`; the two halves of `send_packets_multi` |
| `Headers.dfy`, `Checksum.dfy` | `rfc1812_process`, the MAC rewrite, ones'-complement sums |
| `TxState.dfy`, `TxBuffer.dfy` | the delivery laws on values; the buffers as a class with arrays |
| `LpmClassify.dfy`, `LpmMainLoop.dfy` | LPM lookup, the main loop over whole runs |
| `LcoreLoop.dfy` | what the main loop does on either path: receive, counters, drain, the laws at drain points |
| `Cores.dfy`, `Forwarding.dfy` | several cores under any schedule; setup, launch and the NIC's rings |
| `LpmScalar.dfy`, `LpmScalarLoop.dfy`, `ScalarChecksum.dfy` | the scalar path: one burst, whole runs, its checksums |
| `EmKeys.dfy`, `EmClassify.dfy`, `EmRules.dfy` | exact match: keys under masks, eight at a time, from rules to ports |
| `SplitMerge.dfy`, `AclClassify.dfy`, `AclRules.dfy`, `Ipv6Prefix.dfy` | FIB, ACL |
| `EventVector.dfy` | event vector compaction and labelling |
| `Platform.dfy`, `QueueSetup.dfy`, `L2fwd.dfy` | cores and ports, queue assignment, pairing |

Code that works in place is modelled in place: arrays for the slots, the destinations and the
packet bytes, a class for a core's buffers, one for the counters, one for the queue lists. A
ghost field of the buffers (`LcoreConf.tx`) records what was offered, accepted, freed and kept,
packet by packet, and every call to `rte_eth_tx_burst` with its port and queue; the arrays are
tied to it by `Valid`. Some predicates are closed: they say their piece under `forall k ::
Asked(k) ==> ...`, where `Asked` is always true, so that only the proofs that mention `Asked`
look into them. Pointers into `pnum` are slot numbers. `uint8` to `uint64` are subranges of the
integers; wrap-around, saturation and truncation are written out where the code has them. The
host is little-endian.

The environment is left open: `rte_eth_tx_burst` takes any leading part of what it is offered,
a receive call yields any frames, and the LPM, FIB, hash and ACL structures are arbitrary
functions of the key. Contents of frames are arbitrary, but every buffer has room for an
Ethernet and an IPv6 header (for exact match, for the three registers its key takes), as the
loads in the code need.

## Model

| member | source | states |
|---|---|---|
| PktGroup.GptblMeaning | common/pkt_group.h:36-137 | what all sixteen entries of the table mean: the live counter's increment, the four new counters and the new live slot, in terms of the four comparisons |
| PktGroup.MaskBits | common/sse/port_group.h:30-32 | bit i of the mask is set iff element i equals element i + 1, through compare, unpack and sign mask on SSE lanes |
| PktGroup.LiveBlock | common/sse/port_group.h:34-44 | the five overlapping slot writes never damage a finished or the live counter: four more elements are counted |
| PktGroup.PortGroupx4 | common/sse/port_group.h:19-45 | one step extends the exact run lengths by four elements, moves the live slot to the last run's head and writes no other slot |
| PktGroup.LiveStep | common/pkt_group.h:26-34 | one scalar step extends the exact run lengths by one element |
| PktGroup.GroupPortStepAt | common/pkt_group.h:26-34 | the step on the arrays is the step on values |
| PktGroup.Unrepeat | l3fwd/l3fwd_sse.h:142-152 | decrementing the live counter exactly undoes the repeated last destination |
| PktGroup.AgreesWithScalar | l3fwd/l3fwd_sse.h:111-176 | at every run head the grouped counters equal those of the scalar step folded over the whole burst |
| PktGroup.ReservedExactly | l3fwd/l3fwd_sse.h:154-176 | without a block before it the scalar form is right on all prior slot contents iff the first destination is not BAD_PORT - 1 |
| PktGroup.RunHeadsExact | l3fwd/l3fwd_sse.h:185-191 | the slots of the walk are all run heads and only those, ascending from 0 |
| PktGroup.RunHeadsTile | l3fwd/l3fwd_sse.h:185-205 | between consecutive heads lies one maximal uniform run, so the groups tile the burst |
| Headers.MalformedIffRulesFail | l3fwd/l3fwd_common.h:53-56 | the wrap-around test of the fast path rejects exactly the headers that rules 3 to 5 of is_valid_ipv4_pkt reject |
| Headers.MalformedExactly | l3fwd/l3fwd_common.h:53-56 | those are the headers whose version is not 4, or that claim fewer than five words or fewer than twenty bytes, at the header's own offsets |
| Headers.Rfc1812Process | l3fwd/l3fwd_common.h:42-59 | TTL, checksum and destination after the call, byte for byte, and nothing else |
| Headers.BlendMeaning | l3fwd/l3fwd_sse.h:44-48 | the blend takes the first twelve bytes from the addresses and keeps the other four |
| Headers.PositionIndependent | l3fwd/l3fwd_sse.h:20-90 | store-then-check and check-then-store-stale-bytes give the same frame, which is the byte-by-byte meaning, and the same verdict |
| Headers.ForwardedFields | l3fwd/l3fwd_sse.h:20-90 | field by field what leaves: addresses, one less to live, the checksum counted up as a little-endian host reads it, and no other byte |
| Checksum.ByteOrderIndependent | l3fwd/l3fwd_common.h:50-51 | section 2(B) of RFC 1071: the sum of byte-swapped words is the byte-swapped sum, any length |
| Checksum.UpdateSum | l3fwd/l3fwd_common.h:50-51 | the two increments cancel in the host-order sum unless a field wraps |
| Checksum.ChecksumPreserved | l3fwd/l3fwd_common.h:42-59 | a verifying IPv4 header of any even length still verifies iff TTL >= 1 and the stored checksum is not 0xFFFF |
| Checksum.WrappingBreaks | l3fwd/l3fwd_common.h:51 | a concrete verifying header with TTL 64 and checksum 0xFFFF that no longer verifies afterwards |
| FinishBurst.ProcessPacket | l3fwd/l3fwd_sse.h:74-90 | packet j of the tail gets its final bytes and destination, the others stay as they are |
| FinishBurst.Processx4Step3 | l3fwd/l3fwd_sse.h:20-67 | four packets of a block get their final bytes and destinations, the others stay as they are |
| FinishBurst.NextBlock | l3fwd/l3fwd_sse.h:123-140 | one turn of the block loop: four packets finished, four more elements grouped, the registers ready for the next turn |
| FinishBurst.LastBlock | l3fwd/l3fwd_sse.h:142-152 | the last block with its fake fifth element leaves exactly the first k elements grouped |
| FinishBurst.TailStep | l3fwd/l3fwd_sse.h:160-176 | one tail packet finished and grouped |
| FinishBurst.FinishAndGroup | l3fwd/l3fwd_sse.h:111-176 | for any burst up to MAX_PKT_BURST every packet is final and at every run head of the final destinations pnum is the maximal run's length |
| TxState.SplitKeepsAll | l3fwd/l3fwd_sse.h:185-205 | splitting a burst by destination loses and duplicates nothing |
| TxState.EnqueueDelivers | l3fwd/l3fwd_common.h:95-160 | buffering, and flushing when full, appends exactly the packets to the port's offered-then-buffered order, for any NIC answer, and leaves less than the threshold buffered |
| TxState.Sendx4Delivers | l3fwd/l3fwd_common.h:70-161 | the same for direct and buffered sends, other ports untouched |
| TxState.Sendx4Counts | l3fwd/l3fwd_common.h:83-129 | what a send adds to the two counters is what the NIC took and what it left |
| TxState.Sendx4Exactly | l3fwd/l3fwd_common.h:79-160 | when packets are offered at once, when they only join the buffer, and when the first 512 of all go out: buffers, offers and calls in each case |
| TxState.EnqueueExactly | l3fwd/l3fwd.h:141-161 | for a single packet: no call below the threshold, one call for the whole buffer at it |
| TxState.FlushDelivers | l3fwd/l3fwd_lpm.c:246-260 | draining a port delivers nothing new, loses nothing and counts each drained packet once |
| TxState.ReplaySettles | l3fwd/l3fwd.h:118-139 | for any list of transmit calls: per port, offered is accepted plus freed as multisets, and the accepted packets are a subsequence of the offered ones |
| TxState.LogsGrow | l3fwd/l3fwd.h:118-139 | nothing offered, accepted or freed before is undone by what follows |
| TxState.OnceEach | l3fwd/l3fwd_lpm.c:240-292 | each of distinct received packets is in exactly one of accepted, refused, bad and buffered, once |
| TxState.DeliveredThen | l3fwd/l3fwd_lpm.c:240-292 | deliveries compose: bursts one after the other deliver like their concatenation |
| TxState.OwnedExactlyOnce | l3fwd/l3fwd_sse.h:185-205 | a burst adds each of its packets to exactly one of accepted, refused, bad and buffered, once |
| TxState.AccountsOwned | l3fwd/l3fwd_lpm.c:240-292 | since the start: the packets received are exactly, with multiplicity, those accepted, freed or buffered |
| TxState.Conserved | l3fwd/l3fwd_lpm.c:275-287 | sent + dropped + buffered grows by the burst's length |
| TxState.DrainedConserved | l3fwd/l3fwd_lpm.c:246-260 | after a full drain sent + dropped is everything received, when the drained ports cover the destinations |
| TxBuffer.LcoreConf.SendBurst | l3fwd/l3fwd.h:118-139 | the first n table slots are offered in order in one call on the core's own queue of the port, the accepted prefix leaves, each refused packet is freed once |
| TxBuffer.LcoreConf.OfferAndFree | l3fwd/l3fwd_common.h:83-93 | the direct send: the same, on the same queue, for packets that never enter the table |
| TxBuffer.LcoreConf.DuffCopy | l3fwd/l3fwd_common.h:102-121 | the loop entered through its switch copies exactly the n packets in place, indexes in bounds; at n = 0 it would copy four |
| TxBuffer.LcoreConf.CopyIn | l3fwd/l3fwd_common.h:136-155 | a positive count appends exactly that slice to the port's row and leaves the other rows |
| TxBuffer.LcoreConf.Flush | l3fwd/l3fwd_common.h:125-156 | a full row is offered and the packets that did not fit start the row again |
| TxBuffer.LcoreConf.SendPacketsx4 | l3fwd/l3fwd_common.h:70-161 | which of the three cases applies and the buffer, offers and call it leaves; the arrays tied to it with room for one more, and both counters equal to what happened |
| TxBuffer.LcoreConf.SendSinglePacket | l3fwd/l3fwd.h:141-161 | one packet buffered; at the receive burst size the row is offered and emptied |
| SendMulti.CountsBounded | l3fwd/l3fwd_common.h:65-68 | a burst's counters are bounded by one burst and full buffers, far below 32 bits |
| SendMulti.SendGroup | l3fwd/l3fwd_sse.h:190-203 | one group delivered to its port or freed, and counted |
| SendMulti.SendGroups | l3fwd/l3fwd_sse.h:178-207 | the walk terminates, visits exactly the run heads and delivers the whole burst in arrival order |
| SendMulti.SendPacketsMulti | l3fwd/l3fwd_sse.h:95-208 | final bytes, delivery and counters of the whole function |
| LpmClassify.AndFlag | l3fwd/l3fwd_lpm_sse.h:38-53 | the ANDed flag is nonzero iff all four packets are IPv4 |
| LpmClassify.Processx4Step1 | l3fwd/l3fwd_lpm_sse.h:26-56 | the four destination addresses of the headers in memory order, and the flag |
| LpmClassify.SwappedLanes | l3fwd/l3fwd_lpm_sse.h:71-75 | the byte shuffle turns each lane into the address as a host number |
| LpmClassify.WithIpv4Agrees | l3fwd/l3fwd_lpm.c:113-138 | lpm_get_dst_port_with_ipv4 on the packet's own address is lpm_get_dst_port |
| LpmClassify.LooksUpDestination | l3fwd/l3fwd_lpm.c:51-105 | lpm_get_dst_port answers the next hop of the destination address in the header, bytes 30 to 33 or 38 to 53 of the frame |
| LpmClassify.ParsedByEtherType | l3fwd/l3fwd_lpm.c:767-782 | lpm_parse_ptype tells IPv4 and IPv6 by the EtherType |
| LpmClassify.Processx4Step2 | l3fwd/l3fwd_lpm_sse.h:62-91 | four destinations, by one vector lookup or one by one, and no other slot |
| LpmClassify.LpmProcessPackets | l3fwd/l3fwd_lpm_sse.h:97-169 | every slot of the burst has its block or tail destination, which is the next hop of the header's own destination address if that is a port number; how far into the burst array the function reads |
| LpmClassify.PrefetchAll | l3fwd/l3fwd_lpm_sse.h:106-132 | the prefetch loops read up to the slot given in closed form |
| LpmClassify.DereferencesOwnExactly | l3fwd/l3fwd_lpm_sse.h:116-126 | they stay within the burst iff it has fewer than eight packets or a multiple of four |
| LpmClassify.FitsExactly | l3fwd/l3fwd_lpm_sse.h:81-83 | signed saturation and truncation of a hop agree iff the hop is one that fits |
| LpmClassify.PackedExactly | l3fwd/l3fwd_lpm_sse.h:81-83 | what the signed pack leaves of a 32-bit hop, in its four ranges |
| LpmClassify.LpmPortExactly | l3fwd/l3fwd_lpm_sse.h:78-90 | per packet: burst form equals scalar form iff the packet is outside a vector block or its hop fits |
| LpmClassify.LpmRefinesExactly | l3fwd/l3fwd_lpm_sse.h:97-169 | per burst of any length: the four-wide classification is the scalar one iff every hop of a vector block fits |
| LpmClassify.BurstLooksUpDestination | l3fwd/l3fwd_lpm_sse.h:78-90 | wherever it falls in the burst, a packet goes by its own destination address |
| LpmClassify.SaturationShows | l3fwd/l3fwd_lpm_sse.h:81-83 | hop 0x8000 becomes port 0x7FFF in the vector lookup and stays 0x8000 in the scalar one |
| LpmMainLoop.LpmSendPackets | l3fwd/l3fwd_lpm_sse.h:171-180 | classify, finish, group and send: every packet to its own longest-prefix match with the right bytes |
| LpmMainLoop.GoesByBytes | l3fwd/l3fwd_lpm_sse.h:171-180 | the whole decision from the frame's bytes: freed iff IPv4 and not well formed, else to the next hop of its destination address, with that port's addresses, one less to live and no other change but the checksum |
| LcoreLoop.RxBurst | l3fwd/l3fwd_lpm.c:270-271 | the buffers of a burst are distinct, not in use and hold the frames |
| LcoreLoop.EmptiedMeaning | l3fwd/l3fwd_lpm.c:246-260 | after the drain exactly the listed ports' buffers are empty, the others as before |
| LcoreLoop.Drain | l3fwd/l3fwd_lpm.c:246-260 | the drain loop on the arrays: buffers emptied, nothing lost, counters exact |
| LcoreLoop.DrainTurn | l3fwd/l3fwd_lpm.c:241-263 | the recorded drain point is the core's state and its counters right after the drain, with all that has come in |
| LcoreLoop.CountersAddUp | l3fwd/l3fwd_lpm.c:255-287 | rx = tx + dropped + buffered for the 64-bit counters, modulo their width, whichever path fills the state |
| LcoreLoop.PointAt | l3fwd/l3fwd_lpm.c:240-292 | every recorded point of a run accounts for exactly what had come in by then and lies on the way to the present state |
| LcoreLoop.PointBalanced | l3fwd/l3fwd_lpm.c:246-260 | at a drain point received = sent + dropped + buffered in the state and in the counters of that moment, rx = tx + dropped after a covering drain, and what was sent or dropped stays so |
| LcoreLoop.NothingSince | l3fwd/l3fwd_lpm.c:246-260 | with nothing received since a covering drain nothing is buffered now |
| LpmMainLoop.PollQueue | l3fwd/l3fwd_lpm.c:268-289 | one receive: counted, delivered, counted again |
| LpmMainLoop.CountersConserved | l3fwd/l3fwd_lpm.c:255-287 | on the vector path rx = tx + dropped + buffered for the 64-bit counters, modulo their width |
| LpmMainLoop.TurnOn | l3fwd/l3fwd_lpm.c:240-292 | one turn keeps every law of the run: own destinations, right bytes, distinct buffers, per-port order, exact counters, and a drain point for each turn with its state and counters |
| LpmMainLoop.LpmMainLoop | l3fwd/l3fwd_lpm.c:182-295 | the laws hold after any number of turns, for any arrivals and any NIC |
| LpmMainLoop.DrainPoint | l3fwd/l3fwd_lpm.c:246-260 | at the drain point of any turn of a run the balance holds in that moment's state and counters, for exactly the arrivals of the turns before |
| LpmMainLoop.EndsDrained | l3fwd/l3fwd_lpm.c:246-292 | after a last turn that drains all destinations and receives nothing, nothing is buffered and rx = tx + dropped |
| LpmMainLoop.EachOnce | l3fwd/l3fwd_lpm.c:240-292 | every buffer received in a run is in exactly one of accepted, refused, bad and buffered, once |
| LpmScalar.SimpleDestinationSendable | l3fwd/l3fwd_lpm.h:33-38 | no table content makes the scalar path use a port that is not enabled or the receiving one |
| LpmScalar.InitAddresses | l3fwd/main.c:1440-1443 | each register of val_eth starts with the six bytes of the destination address and then the six of the source address |
| LpmScalar.WriteHeaders | l3fwd/l3fwd_lpm.h:40-49 | the scalar stores, and the field the software check zeroes, put destination then source address first and give byte for byte what the vector path's frame is on the checked header |
| LpmScalar.BytesAgreeExactly | l3fwd/l3fwd_lpm.h:25-49 | both paths send the same bytes iff no IPv4 checksum is checked in software or the stored one is zero |
| ScalarChecksum.SoftwareCheckExactly | l3fwd/l3fwd.h:175-184 | a verifying header that was checked in software verifies after the scalar path iff its field was all zeroes or all ones (TTL positive) or 1 (TTL zero) |
| ScalarChecksum.SoftwareCheckBreaks | l3fwd/l3fwd.h:175-184 | a concrete ordinary header that verifies before and not after |
| ScalarChecksum.SentHeader | l3fwd/l3fwd_lpm.h:40-49 | the address stores leave the IP header alone, and without the software check it is rfc1812_process's |
| LpmScalar.SendOrFree | l3fwd/l3fwd_lpm.h:52-55 | a packet with its destination is enqueued there or freed, and the two counters of the call are what happened |
| LpmScalar.SimpleForward | l3fwd/l3fwd_lpm.h:8-88 | the whole function on packet j of a burst: its own destination by checks, lookup and clamp, its own bytes, delivery, occupancy and counters |
| LpmScalar.NoOptSendPackets | l3fwd/l3fwd_lpm.h:91-122 | the burst is delivered to the scalar destinations in arrival order with the scalar bytes, no buffer reaches the receive burst size, the summed counters are exact |
| LpmScalar.PathsAgreeExactly | l3fwd/l3fwd_lpm.h:20-85 | scalar and vector path choose the same destination iff: for IPv4, the header is malformed, or it passes the length and checksum tests and its hop is kept, or it fails them and its hop is BAD_PORT; for IPv6, the hop is kept; otherwise never |
| LpmScalar.StoredIsComputed | l3fwd/l3fwd.h:175-184 | a stored checksum is the complement of the sum with the field zeroed iff the header verifies and does not store 0xFFFF |
| LpmScalar.ValidExactly | l3fwd/l3fwd.h:163-213 | each answer of is_valid_ipv4_pkt in the header's own terms, rule 2 included |
| LpmScalar.DecidesByBytes | l3fwd/l3fwd_lpm.h:18-85 | the scalar decision from the frame's bytes: when it is freed, and where it goes otherwise |
| LpmScalar.PathsAgreeByBytes | l3fwd/l3fwd_lpm.h:18-85 | when scalar and vector path do the same with a frame, from its bytes, by an exact condition |
| PortMask.EnabledBits | l3fwd/l3fwd_lpm.h:36-38 | a port's bit enables that port and no other, and a union of masks enables what either does |
| LpmScalarLoop.TurnOn | l3fwd/l3fwd_lpm.c:240-292 | one turn on the scalar path keeps own destinations and bytes, distinct buffers, per-port order, occupancy, counters and drain points |
| LpmScalarLoop.ScalarMainLoop | l3fwd/l3fwd_lpm.c:182-295 | and so does every run |
| LpmScalarLoop.CountersConserved | l3fwd/l3fwd_lpm.c:255-287 | on the scalar path rx = tx + dropped + buffered for the 64-bit counters, modulo their width |
| LpmScalarLoop.DrainPoint | l3fwd/l3fwd_lpm.c:246-260 | the balance at the drain point of any turn, in that moment's state and counters |
| LpmScalarLoop.EndsDrained | l3fwd/l3fwd_lpm.c:246-292 | after a last covering drain with nothing received, rx = tx + dropped |
| LpmScalarLoop.EachOnce | l3fwd/l3fwd_lpm.c:240-292 | every received buffer is in exactly one place, once |
| Cores.RingIsOneCores | l3fwd/l3fwd.h:118-128 | for any interleaving of the cores' transmit calls, a queue of a port that one core sends on holds exactly what was accepted from that core, in that core's arrival order |
| Cores.TakeTurn | l3fwd/l3fwd_lpm.c:240-292 | one core's turn keeps the laws of all cores' runs |
| Cores.RunCores | l3fwd/main.c:1751 | any number of cores, taking turns in any order: all laws of every core's run, and a log of the NIC that interleaves their calls |
| EmKeys.Masked | l3fwd/l3fwd_em.c:218-225 | a mask of zero and full bytes clears or keeps each byte, by the bitwise AND |
| EmKeys.GetIpv4FiveTuple | l3fwd/l3fwd_em_hlm_sse.h:10-20 | the key of the eight-wide form is the key of the scalar form |
| EmKeys.GetIpv6FiveTuple | l3fwd/l3fwd_em_hlm_sse.h:22-46 | the same for the three registers of an IPv6 key |
| EmKeys.KeyExactly4 | l3fwd/l3fwd_em.c:263-278 | a packet's masked key equals a rule's converted key iff the packet's five-tuple is the rule's |
| EmKeys.KeyExactly6 | l3fwd/l3fwd_em.c:286-317 | the same for IPv6 |
| EmClassify.EmGetDstPortIpv4xN | l3fwd/l3fwd_em_hlm.h:24-49 | keys, bulk lookup and ports of eight packets give each what em_get_ipv4_dst_port and the clamp give it, and no other slot changes |
| EmClassify.EmGetDstPortIpv6xN | l3fwd/l3fwd_em_hlm.h:51-76 | the same for IPv6 |
| EmClassify.AndBelow | l3fwd/l3fwd_em_hlm.h:200-205 | the ANDed type has no bit a packet of the block lacks |
| EmClassify.PathBits | l3fwd/l3fwd_em_hlm.h:207-226 | what the block's type says about each packet's own type |
| EmClassify.EmProcessPackets | l3fwd/l3fwd_em_hlm.h:180-242 | every slot has its block's or tail's destination, the blocks by keys and bulk lookup |
| EmClassify.EmPortExactly | l3fwd/l3fwd_em_hlm.h:24-76 | per packet: block form equals em_get_dst_port iff the packet's type fits the path, or the answer is the receiving port anyway |
| EmClassify.ParsedTypesFit | l3fwd/l3fwd_em.c:529-565 | a type em_parse_ptype writes, with a TCP or UDP bit and the IPv4 or IPv6 bit, is the plain type |
| EmClassify.ParsedExactly | l3fwd/l3fwd_em.c:529-565 | it writes plain IPv4 with TCP or UDP exactly for an IPv4 frame with five header words and protocol 6 or 17, and likewise for IPv6 |
| EmClassify.ParsedFamily | l3fwd/l3fwd_em.c:529-565 | and its IPv4 and IPv6 bits follow the EtherType |
| EmClassify.EmRefines | l3fwd/l3fwd_em_hlm.h:132-242 | for parsed types and bursts of any length the eight-wide form is the scalar one |
| EmClassify.EmRefinesExactly | l3fwd/l3fwd_em_hlm.h:132-242 | for arbitrary types it is, for all table contents, iff every packet's type fits its block's path |
| EmClassify.AndMisleads | l3fwd/l3fwd_em_hlm.h:204-217 | two types whose AND looks like plain IPv4 though one is not |
| EmRules.PopulateIpv4 | l3fwd/l3fwd_em.c:369-417 | every packet finds the port of the last rule with its five-tuple and an enabled port, or nothing |
| EmRules.PopulateIpv6 | l3fwd/l3fwd_em.c:421-456 | the same for IPv6 |
| EmRules.LastServes | l3fwd/l3fwd_em.c:383-404 | a port decides iff it is that of a rule with the key and an enabled port after which there is none; a disabled port never decides |
| EmRules.RulesDecide | l3fwd/l3fwd_em_hlm.h:132-242 | from rules and bytes to ports: in a burst of parsed packets of any length each gets the port the rules give the five-tuple in its own bytes, TCP or UDP only, else goes back |
| SplitMerge.FibSplit | l3fwd/l3fwd_fib.c:136-152 | the two arrays hold the addresses of their type in burst order, the types every packet's type |
| SplitMerge.FibMerge | l3fwd/l3fwd_fib.c:164-171 | hop i is the next answer of packet i's type cut to 16 bits, or the receiving port if that is 999 |
| SplitMerge.OwnAnswers | l3fwd/l3fwd_fib.c:136-171 | the answer the two cursors reach for packet i is the lookup of its own address |
| SplitMerge.FibHops | l3fwd/l3fwd_fib.c:117-171 | split, bulk lookup and merge give every packet the hop of its header's own destination address, or the receiving port for 999 |
| SplitMerge.FibAgreesExactly | l3fwd/l3fwd_fib.c:164-171 | on the same routes FIB and LPM send a packet to the same port iff it has no route, its hop is not taken for 999, or it came in on 999 |
| SplitMerge.FibAgreesAlways | l3fwd/l3fwd_fib.c:164-171 | for all packets and ports iff no route's hop is 999 modulo 65536 |
| AclClassify.Prepare | l3fwd/l3fwd_acl_scalar.h:44-89 | the two data arrays in burst order, and the types |
| AclClassify.ClassifierFields | l3fwd/l3fwd_acl.h:27-32 | at the offsets of the field definitions the classifier sees the packet's own protocol, addresses and ports |
| AclClassify.Merge | l3fwd/l3fwd_acl.c:1024-1049 | hops decoded from the cursors' results, and the count of results that do not forward |
| AclClassify.AclProcessPkts | l3fwd/l3fwd_acl.c:1000-1050 | every hop is decoded from the packet's own classification; the answer counts the packets not forwarded |
| AclClassify.CountExactly | l3fwd/l3fwd_acl.c:996-1050 | the answer is the number of BAD_PORT hops iff no result forwards with its low 16 bits zero |
| AclClassify.DisguisedShows | l3fwd/l3fwd_acl.c:1039-1040 | the result 0x10000 forwards and yet becomes BAD_PORT |
| AclRules.CountLines | l3fwd/l3fwd_acl.c:516-521 | the first pass counts lines by leading character |
| AclRules.RoomForRules | l3fwd/l3fwd_acl.c:533-562 | the second pass never writes past the arrays the first pass sized |
| AclRules.AclNumCounts | l3fwd/l3fwd_acl.c:516-521 | on a file without a bad line the first pass counts exactly the denials the second pass loads |
| AclRules.AclAddRules | l3fwd/l3fwd_acl.c:495-603 | succeeds iff every line is acceptable and there is a route; then the arrays, as long as the source reports them, hold the rules in line order with their user data and priorities |
| AclRules.DisabledRefused | l3fwd/l3fwd_acl.c:576-586 | a route to a disabled port below 32 makes the loader exit; with ports below 32 a file is accepted iff it has a route, all lines parse and all ports are enabled |
| AclRules.EarlierIsHigher | l3fwd/l3fwd_acl.c:590-592 | priority falls with the line, across routes and denials |
| AclRules.FirstLineWins | l3fwd/l3fwd_acl.c:576-592 | a highest-priority match among all loaded rules is the first matching line's rule |
| AclRules.SomeLineFirst | l3fwd/l3fwd_acl.c:576-592 | if any rule line matches, one of them is the first, so the cases of HopOfFirstLine are all there are |
| AclRules.NoLineNoRule | l3fwd/l3fwd_acl.c:576-592 | no matching line, no matching rule |
| AclRules.DecodedLine | l3fwd/l3fwd_acl.c:576-588 | a route's user data decodes to its port iff the port fits in 16 bits; a denial's to BAD_PORT |
| AclRules.HopOfFirstLine | l3fwd/l3fwd_acl.c:1028-1047 | end to end: the hop is decided by the first matching line of the file, BAD_PORT if it denies or there is none |
| AclRules.CountExactlyByFile | l3fwd/l3fwd_acl.c:996-1050 | for the rules of two files the answer counts the BAD_PORT hops of every burst iff each route to a port that is 65535 modulo 65536, below 0x0FFFFFFF, stands behind a line with its pattern |
| AclRules.UnsafeFile | l3fwd/l3fwd_acl.c:576-586 | a one-line file the loader accepts and for which the answer can miscount |
| Ipv6Prefix.SplitMatches | l3fwd/l3fwd_acl.c:303-312 | matching word by word under the split mask lengths is matching the whole number under the whole length, for any number of words |
| Ipv6Prefix.ParseIpv6Net | l3fwd/l3fwd_acl.c:287-315 | lengths above 128 are rejected; otherwise the four lengths add up to m and the fields match an address iff its first m bits do |
| EventVector.FilterBadPackets | l3fwd/l3fwd_event.h:108-137 | in place, the stable filter of both arrays, freeing exactly the BAD_PORT packets in order |
| EventVector.KeptOrFreed | l3fwd/l3fwd_event.h:116-134 | kept and freed packets together are the vector, each once |
| EventVector.KeptHasPort | l3fwd/l3fwd_event.h:116-136 | no kept destination is BAD_PORT and the two parts' sizes add up |
| EventVector.SameEight | l3fwd/l3fwd_sse.h:215-227 | the eight-wide mask is full iff eight more elements equal the first |
| EventVector.SameFour | l3fwd/l3fwd_sse.h:229-242 | the four-wide mask is full iff four more elements equal the first, whatever the other four lanes hold |
| EventVector.ScanFitsExactly | l3fwd/l3fwd_sse.h:229-242 | the scan of every vector that fits in an array of this size stays inside it iff the size modulo 8 is at most 3 |
| EventVector.ScanLeaves | l3fwd/l3fwd_sse.h:229-242 | a full vector of twelve is read up to slot 15 |
| EventVector.ProcessDstPort | l3fwd/l3fwd_sse.h:210-252 | the chunked scan answers the common value, or BAD_PORT if there is none, whatever lies behind the array; and how many slots it reads |
| EventVector.ProcessDstPortScalar | l3fwd/l3fwd_event.h:94-105 | and so does the scalar scan |
| EventVector.ProcessEventVector | l3fwd/l3fwd_event.h:139-158 | a nonempty result is labelled with its one destination iff it has one, otherwise each packet with its own; emptied vectors are not marked valid |
| Platform.RankGrows | l3fwd/main.c:1455-1487 | later enabled cores have larger ranks |
| QueueSetup.GetPortNRxQueues | l3fwd/main.c:345-362 | the number of the port's queues iff their ids are 0, 1, 2 and so on, else the exit |
| QueueSetup.LcoreQueues.InitLcoreRxQueues | l3fwd/main.c:364-386 | succeeds iff no core has more than sixteen queues; then each list is the core's share of the parameters in order |
| QueueSetup.LcoreQueues.InitTxQueues | l3fwd/main.c:1455-1487 | each enabled core gets the queue of its rank on the port, and the port in its list |
| QueueSetup.LcoreQueues.PollResourceSetup | l3fwd/main.c:1318-1487 | succeeds iff the parameters are acceptable, and then all lists and numbers are as they should be |
| QueueSetup.PolledExactlyOnce | l3fwd/main.c:345-386 | each configured (port, queue) is in exactly one core's list, at one place |
| QueueSetup.OnlyConfigured | l3fwd/main.c:298-386 | and nothing else is in any list |
| QueueSetup.SentApart | l3fwd/main.c:1455-1487 | no two cores send on the same queue of a port, and every queue id is below the configured number |
| QueueSetup.ListedExactly | l3fwd/main.c:1484-1485 | a core drains exactly the usable ports, each once |
| Forwarding.Launch | l3fwd/main.c:1751 | every enabled core starts with its share of the receive queues, the usable ports, its own queue on each, and objects of its own |
| Forwarding.Covered | l3fwd/l3fwd_lpm.c:246-260 | after setup every destination of a run is among the ports its core drains |
| Forwarding.CoveredScalar | l3fwd/l3fwd_lpm.h:33-38 | and on the scalar path too, whatever the tables name, if every enabled port is there |
| Forwarding.EveryDrainSettles | l3fwd/l3fwd_lpm.c:246-260 | so after every drain of every core nothing is buffered and rx = tx + dropped |
| Forwarding.ArrivalsApart | l3fwd/main.c:364-386 | packets of different cores came in on different receive queues |
| Forwarding.RingOfCore | l3fwd/main.c:1455-1487 | queue i of a usable port holds what was accepted from the i-th enabled core for it, and nothing of any other core |
| Forwarding.SetupAndRun | l3fwd/main.c:1318-1487 | setup, launch and any schedule: refused exactly when the parameters are unacceptable; otherwise every core runs by its laws, every destination is among the ports its core drains, and each queue of a usable port holds one core's accepted packets |
| L2fwd.CheckPortPairConfig | l2fwd/main.c:555-591 | succeeds iff all ports of the pairs are usable and no port is in two pairs; then the mask is the pairs' ports |
| L2fwd.L2fwdConf.PairFromMap | l2fwd/main.c:726-734 | every pair is entered in both directions |
| L2fwd.L2fwdConf.PairFromMask | l2fwd/main.c:735-754 | neighbours among the enabled ports are paired, a last odd one with itself |
| L2fwd.EnteredInvolves | l2fwd/main.c:726-734 | pairing from the map is an involution on the enabled ports |
| L2fwd.NeighboursInvolve | l2fwd/main.c:735-754 | pairing from the mask is an involution on the enabled ports |
| L2fwd.L2fwdConf.FindLcore | l2fwd/main.c:766-773 | the inner loop ends at the next core with room, or exits with every place taken |
| L2fwd.L2fwdConf.AssignLcores | l2fwd/main.c:757-785 | fails iff ports outnumber q times the enabled cores; else core by core the next q ports, on the least number of cores |
| L2fwd.PolledExactlyOnce | l2fwd/main.c:757-785 | each port is polled by exactly one enabled core, once |
| L2fwd.Configure | l2fwd/main.c:702-785 | which of the four exits is taken, exactly; otherwise involution and assignment hold |

## Where the code and its documentation differ

- `l3fwd/l3fwd_acl.h:34-43` says that ACL rules have higher priority than route rules. The code
  gives priorities by line number alone (`l3fwd/l3fwd_acl.c:590`), and the model follows it:
  an earlier route wins over a later denial.
- `l3fwd/l3fwd_acl.c:996-999` says that the answer is the number of `BAD_PORT` hops. That holds
  exactly when no classification forwards with its low 16 bits zero (`AclClassify.CountExactly`),
  for all bursts exactly when the rule files are safe (`AclRules.CountExactlyByFile`).
- `l3fwd/l3fwd_em_hlm.h:217-226` decides a block's path from the AND of eight types. That is
  right for the types `em_parse_ptype` writes and not for all types a driver may report
  (`EmClassify.EmRefinesExactly`).
- `l3fwd/l3fwd.h:179-183` zeroes the checksum field to compare it and does not put it back, so
  the increment at `l3fwd/l3fwd_lpm.h:43` starts from zero (`ScalarChecksum.SoftwareCheckExactly`).
- `l3fwd/l3fwd_sse.h:233` loads eight destinations where four are left. The array has
  `vector_size` slots (`l3fwd/l3fwd_lpm.c:542`), a number taken from the command line unchecked
  (`l3fwd/main.c:1007`), so a full vector of twelve is read up to slot 15
  (`EventVector.ScanFitsExactly`). The answer does not depend on what is read there.
- `l3fwd/l3fwd_lpm_sse.h:117` looks two blocks ahead whenever the first packet of that block
  exists, and then reads four slots; `LpmClassify.DereferencesOwnExactly` says when all of them
  are packets of the burst.

## Left out

- LpmScalar.NoOptSendPackets: does not state the bytes of packets it frees.
- LpmScalar.ValidExactly: rte_ipv4_cksum is a parameter; it is taken to be the checksum of section 1 of RFC 1071 over the header, which the buffer holds; its code is not part of this model.
- LpmMainLoop.LpmMainLoop: assumes that hops and receive ports are below RTE_MAX_ETHPORTS, as the vector path does when it indexes its address table with them; Forwarding.SetupAndRun derives it from tables that name usable ports only, which `l3fwd/l3fwd_lpm.c:653-664` makes sure of for the routes it enters.
- EmRules.PopulateIpv4: rte_hash is a map from keys to ports, a key added again taking its old place; the hash functions inside it are not part of this model.
- AclRules.HopOfFirstLine: classification is taken to answer a rule of the highest priority, and rules not to exceed MAX_ACL_RULE_NUM, which the ACL context enforces when it is built; rte_acl is not part of this model.
- L2fwd.Configure: port masks are sets of port numbers, so shifting by 32 or more has no counterpart; in AclRules the shift count is taken modulo 32, as x86 does.
- Mixing `send_single_packet` and `send_packetsx4` on one buffer (the ACL mode switch): their flush thresholds differ; each discipline is proved on its own.
- Exact match with do_step3 set, the event worker loops and their shutdown.
- The other main loops (exact match, FIB, ACL): the same receive, classify and send pattern without counters.
- The NEON and AltiVec forms: the same algorithm on other intrinsics.
- Cores.RunCores: a turn is one step of the schedule; cores share no object, so finer steps differ only in the order of the transmit calls, and for that Cores.RingIsOneCores takes any interleaving.
- The cores of the scalar path under a schedule: they share the same setup and the same buffers; the schedule theorem is stated for the vector path.
- Receive buffers come from an unbounded supply: a buffer is not received again while a core still holds it, and recycling by the pool is not modelled.
- Prefetching except for the slots it reads in the LPM path, NUMA and memory pools, link checks, timers, signals, printing, option parsing, rule and address tokenising.
- Packet type values come from DPDK's headers, which are not part of this model.
- mempool_cache_test, rss_verify, x710_check and pkt_gen.py: measurement and reporting around library calls.
