# A verified model of a teaching TCP/IP stack

The repository is a small TCP/IP stack in C: Ethernet, ARP, IPv4, UDP and a passive-open TCP server,
all on top of an expiring slot map and a packet buffer whose headers are pushed and popped in place.
This project models these parts in Dafny and proves what they are for.

Code that updates state step by step is modelled as classes and methods over mutable fields and arrays;
each method is proved to compute a specification function, and the results are lemmas about those
functions: invariants of every run, refinements, round trips, conservation laws.

| files | subject |
|---|---|
| `Words`, `Checksum` | words and byte orders; the Internet checksum in both of its forms |
| `ExpiringMap`, `SlotTable`, `SlotRuns`, `SlotMap`, `MapLayout` | the slot map: meaning, refinement, whole runs, the object in place, the byte layout |
| `Buf`, `Ethernet`, `Ip`, `IpDelivery`, `IpReception`, `Udp`, `UdpZero`, `UdpReception` | the packet buffer and the layers that push and pop headers in it; what each refuses and accepts, read off the bytes |
| `ArpMachine`, `Arp`, `ArpResolution` | address resolution and its queue of one packet per destination; resolution between two hosts |
| `TcpTrace`, `TcpMachine`, `TcpInvariant` | what TCP may do, its step function, and the proof that every step is justified by the past |
| `TcpHistory`, `TcpRuns`, `TcpOutcome`, `TcpIsn`, `TcpQuiet`, `TcpNetwork` | delivery, sequence space, life cycle, handshake and close over whole runs; what each event must lead to; initial numbers; replies that die out |
| `TcpEcho`, `TcpSession` | the echo service of `src/main.c` |
| `TcpSegment`, `TcpReception`, `TcpPorts`, `TcpEngine` | TCP segments on the wire; the module in place |
| `Stack` | the layers put together, from one host to the other |

## How TCP is modelled

`TcpEngine.Engine` runs the code of `src/tcp.c` in place: connection records are changed through positions
in the table, segments are built in the transmit buffer and logged as `ip_out` receives them. It is proved
to compute the step functions of `TcpMachine`. Those keep a trace of what was done (arrivals, openings,
transmissions, state changes, acceptances, deliveries, removals). `TcpTrace.JustifiedNext` says when an entry may
follow a given past, in terms of unbounded histories and never of the program's state. `TcpInvariant`
proves that every step appends only justified entries, and `TcpHistory` derives its results from that alone.

The handler that `tcp_in` calls in its middle is a script of `tcp_send`, `tcp_close`, `tcp_listen` and
`tcp_unlisten` calls, each with its own clock reading. Unless a theorem names its handler it holds for all
scripts, so for every handler.

Assumptions, all visible in the contracts:

- The host is little-endian with 64-bit `size_t` and `time_t`. The clock is never 0 and does not go backwards.
- A call reads the clock once; the calls of a handler read it again.
- A TCP peer is conforming where a property says so (`TcpHistory.ConformingPeer`): one byte stream, then one FIN,
  no SYN after the handshake, and segments less than 2^32 stream positions from the expected one. The network may
  lose, duplicate, delay and reorder them.

## What the proofs found

Each of these is a lemma with the exact condition or a concrete failing input.

- A timed table can refuse new entries for ever. `size` counts a recycled slot again, so a table with a timeout
  can reach `size == max_size` with every slot dead. A table refuses every insertion from some time on, whatever is
  called, if and only if it is in that state (`SlotRuns.RefusesForeverIffDead`), and a fresh table can get there if
  and only if it has a timeout (`SlotRuns.TimedTablesDie`), for instance by updates of one key
  (`SlotRuns.TimedTableCanDie`). The tables of TCP (64 slots), ARP and the ARP packet queue have
  timeouts. `map_size` is documented as the current size; it is the stamped slots plus the slots recycled so
  far (`SlotRuns.SizeAccounting`), which is exact without a timeout.
- The slots of a map lie inside its storage if and only if the product in the guard of `map_init` does not wrap
  around to a small number (`MapLayout.SlotsFit`).
- The rate limit on ARP requests holds after a request if and only if its packet could be parked, whatever
  happens for other addresses meanwhile (`ArpMachine.SilenceAfterRequest`). As many packets for one silent
  address as the queue has slots, two seconds apart, fill it for good: from then on no packet is parked or
  flushed in any run (`ArpMachine.QueueCanDie`), and two packets in the same second cause two requests
  (`ArpMachine.RateLimitFails`).
- `ip_out` loses the whole payload when it has to cut a packet that is in the transmit buffer itself: an empty
  first fragment goes out, and a last one with what `arp_out` left in the buffer (`IpPackets.IpLayer.IpOut`,
  `IpDelivery.OwnBufferLosesPayload`). `tcp_out` and `udp_send` pass that buffer, so this concerns TCP payloads
  above 1460 bytes and UDP payloads above 1472.
- RFC 768 sends a computed UDP checksum of zero as all ones; `udp_out` sends it as zero, which `udp_in` takes for
  no checksum. It is zero exactly when the sum folds to 65535 (`UdpZero.ZeroIffFullSum`), which happens for all
  addresses and ports (`UdpZero.ZeroHappens`), and exactly then any damage to the payload is accepted
  (`UdpZero.UnprotectedIffZero`).
- A connection in LAST_ACK or CLOSING can move to FIN_WAIT_2, but only on a second FIN
  (`TcpHistory.ConformingMoves`), which no conforming peer sends.
- The 32-bit checksum accumulator is exact up to 65537 words and wrong for some input of 65538
  (`Checksum.AccumulatorExact`, `Checksum.AccumulatorOverflows`). The checksum misses a changed word only for
  0x0000 against 0xffff (`TcpSegment.WordChangeDetected`).
- Fragment offsets fit their 13 bits exactly for payloads of up to 66600 bytes (`IpDelivery.OffsetsFit`).

## Model

| member | source | states |
|---|---|---|
| Checksum.Checksum16 | src/utils.c:75-87 | the folding loop returns the complement of the canonical one's-complement sum of the words in host order, for every length |
| Checksum.ChecksumAdd | src/tcp.c:35-46 | the accumulating loop adds the big-endian sum, odd byte padded with zero, modulo 2^32 |
| Checksum.FoldDown | src/tcp.c:61-63 | the final loop yields the complement of the canonical sum in at most two rounds |
| Checksum.TwoFoldsSuffice | src/tcp.c:61-63 | two folds bring any 32-bit sum to its canonical representative |
| Checksum.CanonIsResidue | src/utils.c:75-87 | the canonical sum is 0 only for a sum of 0 and otherwise the representative modulo 65535 in 1..65535 |
| Checksum.AccumulatorExact | src/tcp.c:35-46 | up to 65537 words the 32-bit accumulator never wraps |
| Checksum.AccumulatorOverflows | src/tcp.c:35-46 | with 65538 words there is an input whose checksum comes out wrong |
| Checksum.AlgorithmsAgree | src/tcp.c:35-64 | accumulate-then-fold in network order equals fold-per-add in host order, byte-swapped, for every message of up to 65537 words |
| Checksum.CanonSwaps | src/utils.c:75-87 | canonical sums in the two byte orders are byte swaps of each other, for even and odd lengths |
| Checksum.ByteOrderIndependence | src/ip.c:201 | section 2(B) of RFC 1071: the host-order sum stored raw and the network-order sum stored swapped are the same two bytes |
| Checksum.Verifies | src/tcp.c:48-64 | a message carrying the complement of its sum always verifies |
| Checksum.BothVerify | src/tcp.c:48-64 | of two messages that differ in one word both verify if and only if the words are equal or 0x0000 and 0xffff |
| Words.ByteOrders | src/tcp.c:27-33 | network order puts the most significant byte first, the host stores the least first |
| ExpiringMap.FoundAfterPut | src/map.c:95-120 | an entry set is found with its new value until the timeout, counted from that call, and no longer; an update renews it; no other entry changes; `size` grows only for a new key |
| ExpiringMap.FoundAfterRemove | src/map.c:128-136 | a deleted key is not found, every other is as before; `size` shrinks only if the key was live |
| ExpiringMap.FoundAfterPoke | src/map.c:61-82 | a write through a pointer changes the value found and does not renew the entry |
| SlotTable.InitRefines | src/map.c:14-27 | an empty slot array stands for the empty partial map |
| SlotTable.TimePasses | src/map.c:61-65 | the refinement survives the passing of time: an expired copy of a key never becomes visible |
| SlotTable.GetRefines | src/map.c:74-85 | linear search is lookup in the expiring partial map |
| SlotTable.SetOutcome | src/map.c:95-120 | `map_set` fails exactly when a new key meets `size == max_size`; otherwise a free slot exists |
| SlotTable.SetRefines | src/map.c:95-120 | `map_set` is update; it keeps at most one live slot per key |
| SlotTable.DeleteRefines | src/map.c:128-136 | `map_delete` is removal and `size` does not underflow |
| SlotTable.WriteRefines | src/map.c:82 | a write through a pointer obtained earlier changes that key's value and no other |
| SlotTable.ForEachIsExact | src/map.c:144-152 | `map_foreach` visits each live key once, with its current value and time, and nothing else |
| SlotRuns.RunRefines | src/map.c:74-136 | any run under a non-decreasing clock keeps the slot array a refinement of the partial map |
| SlotRuns.GetAfterRun | src/map.c:74-85 | after any run and any later time `map_get` is lookup, and `map_set` succeeds if the key is live or `size` is below the maximum, and only then |
| SlotRuns.SizeAccounting | src/map.c:95-136 | live slots <= stamped slots <= `size` <= `max_size`; the excess of `size` is the number of expired slots recycled; exact without timeout |
| SlotRuns.DeadForever | src/map.c:95-136 | in that direction: no later call changes such a table, every insertion fails and every lookup misses |
| SlotRuns.OneDeletionRevives | src/map.c:95-136 | any other reachable table accepts an insertion, after one deletion at most |
| SlotRuns.RefusesForeverIffDead | src/map.c:95-136 | a table refuses every insertion after every later run if and only if `size == max_size` and no slot is live |
| SlotRuns.TimedTablesDie | src/map.c:61-120 | a fresh table with slots can get into that state if and only if it has a timeout |
| SlotRuns.TimedTableCanDie | src/map.c:95-120 | how: updates of one key, each after the last has expired, and then any later calls |
| SlotMap.Map.constructor | src/map.c:14-27 | the fresh object stands for the empty map with the capacity `map_init` computes |
| SlotMap.Map.Get | src/map.c:74-85 | finds the one slot of a live key, and none if the key is not live |
| SlotMap.Map.Set | src/map.c:95-120 | in place: the whole new partial map, and 0 or -1 exactly as the partial map accepts or refuses |
| SlotMap.Map.Delete | src/map.c:128-136 | in place: removal from the partial map |
| SlotMap.Map.Write | src/map.c:82 | in place: only that slot's value changes, even if the entry has expired meanwhile |
| SlotMap.Map.ForEach | src/map.c:144-152 | the visited entries are the usable slots in order |
| MapLayout.SlotsFit | src/map.c:14-27 | all slots lie within `MAP_MAX_LEN` if and only if the guard's product did not wrap to a small number |
| MapLayout.CapacityExact | src/map.c:16-17 | a capacity asked for that fits is granted, otherwise the largest that fits is taken |
| MapLayout.ProductFits | src/map.c:16-17 | the capacity chosen times the entry length is at most `MAP_MAX_LEN`, for any request whose product does not wrap to a small number |
| MapLayout.SlotsDisjoint | src/map.c:47-52 | different slots share no byte |
| MapLayout.WriteInside | src/map.c:47-52 | any write inside a slot changes that slot as asked and no byte of any other |
| MapLayout.StoreEntry | src/map.c:111-113 | the writes of an insertion fill exactly their slot with key, value and time and change no byte of any other |
| MapLayout.UpdateEntry | src/map.c:100-101 | the writes of an update keep the key and every byte of any other slot |
| MapLayout.ClearEntry | src/map.c:133 | the write of a deletion zeroes the time, keeps key and value and every byte of any other slot |
| Buf.Packet.Init | src/buf.c:11-22 | success or failure by length, the window placed in the middle; unchanged on failure |
| Buf.Packet.AddHeader | src/buf.c:31-41 | the window grows to the front over the bytes lying there, or nothing changes and -1 |
| Buf.Packet.RemoveHeader | src/buf.c:50-60 | the window loses its first bytes, or nothing changes and -1 |
| Buf.Packet.AddPadding | src/buf.c:69-79 | zeros are appended, at the cost of exactly those bytes behind the window, or nothing changes and -1 |
| Buf.Packet.RemovePadding | src/buf.c:88-97 | the window loses its last bytes, or nothing changes and -1 |
| Buf.Packet.CopyFrom | src/buf.c:106-113 | a full copy with the same window |
| Ethernet.FrameRoundTrip | src/ethernet.c:11-53 | every frame sent begins with its receiver's address, is accepted and split into the same protocol, source and payload, with only padding behind it |
| Ethernet.FrameFields | src/ethernet.c:35-49 | the bytes of a frame: receiver, our address, protocol, payload, and zeros up to 60 bytes |
| Ethernet.SplitExact | src/ethernet.c:11-25 | frames below 42 bytes are dropped, all others taken apart by their fields |
| Ethernet.Nic.EthernetOut | src/ethernet.c:33-53 | padding and header in place make exactly the frame handed to the driver |
| Ethernet.EthernetIn | src/ethernet.c:11-25 | pops the header in place; frames that are too short change nothing |
| IpPackets.HeaderReads | src/ip.c:113-137 | each field of a header made by the sender is read back at its offset of RFC 791 section 3.1 |
| IpPackets.HeaderCheckOnWire | src/ip.c:201 | the stored header checksum is the RFC 791 one over big-endian words |
| IpPackets.PacketAccepted | src/ip.c:106-171 | a packet built by `ip_fragment_out`, with any padding behind it, passes all tests and yields the same protocol, source and payload, or the fragment it is |
| IpReception.VerdictExact | src/ip.c:106-171 | the verdict on every packet from its bytes as RFC 791 section 3.1 lays them out: dropped, protocol unreachable, fragment, or handed up with what is left |
| IpReception.DroppedIff | src/ip.c:108-133 | a packet is dropped if and only if it is too short, has another version or header length, a total length beyond its end, a wrong checksum, or another host's address |
| IpReception.OtherHostsDrop | src/ip.c:132-133 | a packet built for one host is dropped by every other |
| IpReception.DamageNoticed | src/ip.c:122-129 | of a packet that would be taken, one changed header word leads to a drop, with the exact exception |
| IpReception.PacketFields | src/ip.c:187-201 | the packet built, field by field, with the checksum over its own words |
| IpPackets.TestHeader | src/ip.c:108-133 | the header tests, blanking the checksum and putting it back so that no byte is changed |
| IpPackets.IpIn | src/ip.c:106-171 | the verdict on every packet, in place; payload bytes untouched, the window left on the payload handed up |
| IpPackets.IpLayer.WriteHeader | src/ip.c:187-201 | field-by-field writes make the header with its checksum and leave the rest of the window |
| IpPackets.IpLayer.MakePacket | src/ip.c:185-201 | pushes the header in front of the window |
| IpPackets.IpLayer.HandToArp | src/ip.c:203 | the packet is given to `arp_out`, which leaves the window in one of the places that `Arp.ArpLayer.ArpOut` may leave it |
| IpPackets.IpLayer.IpFragmentOut | src/ip.c:183-204 | exactly the packet with its header is handed to `arp_out`, which may then move or overwrite the buffer |
| IpPackets.IpLayer.SendPiece | src/ip.c:227-237 | one turn of the loop sends the next 1480 bytes and leaves the remaining window; in the transmit buffer itself it sends an empty piece |
| IpPackets.IpLayer.IpOut | src/ip.c:213-243 | the packets sent are those of the fragments that cut the payload, though the last header overwrites bytes already sent; for a long packet in the transmit buffer itself, an empty fragment and one of what `arp_out` left |
| IpDelivery.CutShape | src/ip.c:213-243 | all fragments but the last carry 1480 bytes and MF, the last is non-empty without MF, offsets step by 185 |
| IpDelivery.PieceAgrees | src/ip.c:227-239 | each fragment is the slice of the payload that its offset names |
| IpDelivery.OffsetsFit | src/ip.c:194 | offsets fit 13 bits if and only if the payload has at most 66600 bytes |
| IpDelivery.Reassembles | src/ip.c:213-243 | in any order and with duplicates the fragments rebuild the payload exactly (RFC 791 section 3.2) |
| IpDelivery.FragmentsAccepted | src/ip.c:106-157 | every packet of a fragmented payload is recognised at the destination as the fragment it is, with the common identification |
| IpDelivery.FragmentationPreserves | src/ip.c:183-243 | the packets on the wire, in any order and with duplicates, rebuild the payload through the receiver's own parsing |
| IpDelivery.OwnBufferLosesPayload | src/ip.c:227-239 | fragments cut from the transmit buffer itself never place the first byte, whatever `arp_out` left there |
| IpDelivery.IpOverEthernet | src/ethernet.c:11-53 | for up to 1480 bytes: `ethernet_in` and `ip_in` on the frame sent hand up exactly payload, protocol and source, padding removed |
| Udp.UdpCheckOnWire | src/udp.c:19-48 | the checksum on the wire is the one's complement sum of RFC 768 over big-endian words, odd lengths included, and a zero is sent as it is |
| Udp.WritePseudo | src/udp.c:30-34 | the pseudo header lands on the twelve bytes in front and nowhere else |
| Udp.PadAndSum | src/udp.c:36-39 | pads an odd window with one zero and sums it, folding in host order |
| Udp.SumWithPseudo | src/udp.c:23-39 | lays the pseudo header over the bytes in front and sums up; what the buffer then holds |
| Udp.GiveBack | src/udp.c:41-44 | the borrowed bytes and the window are put back |
| Udp.UdpChecksum | src/udp.c:19-48 | right value; afterwards window, datagram and borrowed bytes are as before, all but the one byte behind an odd datagram |
| Udp.DatagramAccepted | src/udp.c:56-79 | a datagram from `udp_out` always passes the check of `udp_in` and reaches its port with its payload |
| UdpReception.VerdictExact | src/udp.c:56-79 | the verdict on every datagram from its bytes: dropped if too short or with a wrong checksum, otherwise by the handler of its port |
| UdpReception.DatagramFields | src/udp.c:91-99 | the datagram built, field by field |
| Udp.UdpLayer.MakeDatagram | src/udp.c:91-99 | builds the datagram in place |
| Udp.UdpLayer.UdpOut | src/udp.c:89-102 | exactly the datagram is handed to `ip_out` |
| Udp.UdpLayer.CheckIn | src/udp.c:62-66 | the checksum test, which leaves an accepted datagram unchanged |
| Udp.UdpLayer.UdpIn | src/udp.c:56-79 | dropped, port unreachable or delivered; the window on the delivered payload, or moved back over the IP header for the error |
| Udp.UdpLayer.UdpOpen | src/udp.c:121-124 | in place: never fails, the port is found with this handler at any later time, every other port as before |
| Udp.UdpLayer.UdpClose | src/udp.c:131-134 | in place: the port is not found any more, every other as before |
| UdpZero.ZeroIffFullSum | src/udp.c:98-99 | the computed checksum is zero if and only if the sum folds to 65535 |
| UdpZero.ZeroHappens | src/udp.c:98-99 | for all addresses and ports there is a payload for which it is zero |
| UdpZero.UnprotectedIffZero | src/udp.c:62-66 | every damage to the payload is accepted if and only if the checksum came out as zero |
| ArpMachine.RunInv | src/arp.c:102-157 | in every run each effect is justified by the history of its address, and both tables agree with that history |
| ArpMachine.RequestsAreSpaced | src/arp.c:144-157 | two requests for one address, the first with its packet parked, are separated by a flush or by more than `ARP_MIN_INTERVAL` |
| ArpMachine.FlushSendsParked | src/arp.c:125-130 | a flush sends the packet parked last, not sent before, to the address learned last |
| ArpMachine.SentToLearned | src/arp.c:147-150 | a packet sent at once goes to the address learned last |
| ArpMachine.DropMeansWaiting | src/arp.c:152-156 | a packet is dropped only while another one is parked for its address |
| ArpMachine.QueueConserves | src/arp.c:102-157 | packets parked = flushed + given up + replaced + the one still waiting, for every address |
| ArpMachine.OutDisposes | src/arp.c:144-157 | each call does exactly one thing with its packet: sent to the cached address, parked with a request, or dropped; the tables change only by the parking |
| ArpMachine.SilenceAfterRequest | src/arp.c:152-156 | a second request within the interval, with any events for other addresses in between, happens if and only if the queue had no room for the first packet |
| ArpMachine.QueueCanDie | src/arp.c:144-157 | from the start, as many packets for one silent address as there are slots kill the queue: nothing is parked or flushed in any later run |
| ArpMachine.RateLimitFails | src/arp.c:152-156 | then two packets in one second cause two requests |
| ArpMachine.InOutcome | src/arp.c:117-134 | everything an ARP packet causes, in order: the sender recorded, a request for us answered, then the waiting packet sent or, without one, a packet for somebody else passed on |
| ArpMachine.InLearns | src/arp.c:118-129 | the sender is found at that address for as long as entries live, others as before, and nothing waits for the sender any more |
| ArpMachine.RepliesMatchRequests | src/arp.c:120-123 | in every run the replies are exactly the answers to the requests for our address, one for each, in order |
| Arp.MessageRoundTrip | src/arp.c:105-115 | every ARP packet this stack sends is read back as what it was meant to be |
| Arp.ReadExact | src/arp.c:105-115 | which bytes are taken for an ARP packet, and its fields as RFC 826 lays them out |
| Arp.ArpLayer.constructor | src/arp.c:163-168 | both tables start empty |
| Arp.ArpLayer.FramesOnWire | src/arp.c:59-94 | the frames sent are those of the entries of the trace, one for each in order, each with its receiver in front: cached or learned address, broadcast, or the requester |
| Arp.ArpLayer.ArpReq | src/arp.c:59-73 | exactly the broadcast request frame goes out |
| Arp.ArpLayer.ArpResp | src/arp.c:81-94 | exactly the reply frame goes out, to the requester |
| Arp.ArpLayer.LearnAddress | src/arp.c:118 | the sender is learned if the table accepts it |
| Arp.ArpLayer.SendCached | src/arp.c:147-150 | the packet goes to the cached address |
| Arp.ArpLayer.ParkAndAsk | src/arp.c:152-155 | a copy of the packet is parked and the request goes out, the packet itself possibly being in the transmit buffer |
| Arp.ArpLayer.FlushQueue | src/arp.c:125-130 | the parked packet goes out again through `arp_out` and its entry is deleted |
| Arp.ArpLayer.ArpOut | src/arp.c:144-157 | in place, the step of the machine; the frames sent are those of its trace; where the window of the packet is left |
| Arp.ArpLayer.ArpIn | src/arp.c:102-135 | in place, the step of the machine; a malformed packet changes nothing |
| ArpResolution.RequestAnswered | src/arp.c:102-123 | over the bytes of the frame: the asked host answers a request with its own address and learns the asker's |
| ArpResolution.PacketResolved | src/arp.c:125-157 | over the bytes of the frame: the answer sends the packet parked with the request to the card of the host that was asked |
| TcpSegment.Compute | src/tcp.c:48-64 | pseudo header and segment are summed to the value the receiver tests |
| TcpSegment.HeaderFields | src/tcp.c:85-93 | each field stands at its offset of RFC 793 section 3.1, in network order, with the window 65535 and no urgent pointer |
| TcpSegment.WriteHeader | src/tcp.c:85-94 | in place, field by field, the segment with its checksum |
| TcpSegment.Build | src/tcp.c:75-94 | builds the segment in the buffer, or fails exactly when the payload is too long for it |
| TcpSegment.EncodedChecksum | src/tcp.c:94 | every segment built verifies at the receiver |
| TcpSegment.RoundTrip | src/tcp.c:75-130 | every segment built passes length, offset and checksum tests and decodes to the same fields and payload |
| TcpReception.DecodeExact | src/tcp.c:114-130 | which bytes are taken for a segment and what is read from them; anything else is refused; options are skipped |
| TcpReception.DamageRefused | src/tcp.c:114-121 | one changed word makes `tcp_in` refuse an accepted segment, with the exact exception |
| TcpSegment.WordChangeDetected | src/tcp.c:48-64 | changing one 16-bit word goes unnoticed if and only if it is 0x0000 against 0xffff |
| TcpSegment.TailChangeDetected | src/tcp.c:42-44 | changing the last byte of an odd segment is always noticed |
| TcpPorts.PortsFit | src/map.c:104-119 | a table without timeout, keyed by ports and larger than the port space, never refuses a port |
| TcpInvariant.ReceiveInv | src/tcp.c:112-228 | every arrival, with any handler, appends only justified entries and keeps records and histories in agreement |
| TcpInvariant.ActInv | src/tcp.c:230-269 | so does every application call, which adds to histories only by sending |
| TcpInvariant.KnockInv | src/tcp.c:134-155 | so does an arrival without a connection |
| TcpInvariant.HandshakeInv | src/tcp.c:163-176 | so does an arrival in SYN_RECEIVED |
| TcpInvariant.TakeInv | src/tcp.c:203-210 | so does accepting and delivering an in-order segment |
| TcpInvariant.PeerFinInv | src/tcp.c:212-227 | so does the answer to a FIN, in whatever state the handler left the connection |
| TcpRuns.RunOk | src/tcp.c:112-278 | both invariants hold in every run from `tcp_init` on |
| TcpRuns.RunDelivers | src/tcp.c:163-228 | in every run the bytes handed to the handler are a prefix of a conforming peer's stream, and all that was acknowledged while established |
| TcpRuns.RunNumbers | src/tcp.c:143-269 | in every run `snd_nxt` is ISS + 1 + bytes sent + FIN sent and `rcv_nxt` is IRS + 1 + space accepted, modulo 2^32; a FIN was sent exactly past ESTABLISHED |
| TcpRuns.RunHandshake | src/tcp.c:134-176 | in every run a connection past SYN_RECEIVED went through SYN, SYN and ACK, ACK, in that order and in its present life |
| TcpRuns.AnsweredExactly | src/tcp.c:178-227 | on a synchronized connection, whatever the handler does, a segment that does not remove it makes the stack send if and only if it takes sequence space and is out of order, carries a FIN, or carries data while established; the answer acknowledges all that is accepted |
| TcpRuns.ReceiveFrame | src/tcp.c:112-228 | an arrival for one connection reaches others only through what the handler sends |
| TcpHistory.DeliveredInOrder | src/tcp.c:163-228 | in-order, exactly-once delivery over a connection's whole life, across 32-bit wrap and all later states |
| TcpHistory.SegmentNamesItsBytes | src/tcp.c:203-269 | every segment carries exactly the slice of the stream its sequence number names and acknowledges exactly what was accepted |
| TcpHistory.SegmentsDoNotOverlap | src/tcp.c:203-269 | no sequence number is used twice |
| TcpHistory.StreamIsCovered | src/tcp.c:203-269 | no sequence number is skipped: every byte and the FIN were sent in some segment |
| TcpHistory.SynAcksAreIdentical | src/tcp.c:143-170 | repeated SYN and ACK segments of a connection are identical |
| TcpHistory.ResetIsBelieved | src/tcp.c:100-110 | a reset answering a segment of this stack stands exactly at the number the connection expects next (RFC 793 section 3.4) |
| TcpHistory.AtMostOneFin | src/tcp.c:212-269 | at most one FIN is sent, none in SYN_RECEIVED, exactly one past ESTABLISHED |
| TcpHistory.LifeGrows | src/tcp.c:157-269 | within a life the rank never drops, streams only grow, and nothing is sent after the FIN |
| TcpHistory.RankNeverDrops | src/tcp.c:157-269 | the same between any two moments |
| TcpHistory.ConformingMoves | src/tcp.c:157-269 | a conforming peer causes only the transitions of RFC 793 section 3.9; any other peer adds only moves to FIN_WAIT_2 on a second FIN |
| TcpOutcome.ArrivalOutcome | src/tcp.c:157-227 | what must happen: the state after an arrival, or the removal, is exactly the one the connection's unbounded history calls for, unless the handler closes it |
| TcpOutcome.HandshakeOutcome | src/tcp.c:157-176 | in SYN_RECEIVED: the SYN again gets the same SYN and ACK, the ACK of both numbers establishes and sends nothing, a reset removes, anything else gets the one reset; nothing else happens |
| TcpOutcome.ArrivalExact | src/tcp.c:157-227 | on a synchronized connection the trace grows by exactly the entries its history calls for, unless the handler makes calls of its own |
| TcpOutcome.HandlerCall | src/tcp.c:203-227 | when the handler is called, the segment is accepted and acknowledged and nothing else is done; its calls come next and the answer to a FIN last |
| TcpOutcome.KnockOutcome | src/tcp.c:134-155 | without a connection: a SYN to a port listened on opens one with the next initial number if there is room, and is ignored if not; anything else but a reset gets the one reset |
| TcpOutcome.ListenOutcome | src/tcp.c:230-235 | listening opens the port with its handler, at any later time and in the history, and leaves every other port as it was |
| TcpOutcome.UnlistenOutcome | src/tcp.c:237-240 | and this closes it |
| TcpOutcome.SendOutcome | src/tcp.c:242-254 | on a live established connection one segment with the payload at the next number, otherwise nothing |
| TcpOutcome.CloseOutcome | src/tcp.c:256-269 | on a live established connection the one FIN at the next number and the move to FIN_WAIT_1, otherwise nothing |
| TcpHistory.HandshakeHappened | src/tcp.c:134-176 | SYN on a port listened on at that time, then the SYN and ACK, then an ACK matching both numbers, all in the present life of the connection |
| TcpHistory.GracefulClose | src/tcp.c:178-193 | removal by acknowledgement: both FINs exchanged, and the segment just arrived acknowledges everything sent, FIN included |
| TcpIsn.StepIsn | src/tcp.c:149 | only a SYN to a listened port without a connection spends an initial number |
| TcpIsn.IsnAfterRun | src/tcp.c:143-152 | after any run the next initial number is the first one plus 64000 for each such SYN, modulo 2^32 |
| TcpIsn.IsnsDiffer | src/tcp.c:143-152 | two connections of one run start from different numbers as long as fewer than 8388608 are spent between them |
| TcpQuiet.TextEnergy | src/tcp.c:195-227 | the answers to a segment weigh less than the segment, also when data and FIN are answered twice |
| TcpQuiet.ReceiveCools | src/tcp.c:100-228 | with a handler that sends no data, but may close, listen and unlisten, every `tcp_in` strictly lowers the weighted sum of segments and connections that may still send a FIN |
| TcpQuiet.BareSegmentsGetAtMostReset | src/tcp.c:100-228 | a segment without sequence space is answered by at most one reset, and a reset by nothing |
| TcpNetwork.WireCarriesPacket | src/tcp.c:75-130 | the segment that travels in the network model is what the peer decodes from the bytes |
| TcpNetwork.OutgoingExact | src/tcp.c:75-98 | exactly the segments sent to the peer are put in flight |
| TcpNetwork.StepCools | src/tcp.c:100-228 | every delivery or loss between two hosts lowers the sum over both hosts and the network |
| TcpNetwork.AlwaysGoesQuiet | src/tcp.c:100-228 | so the number of deliveries in any run without duplication is bounded by the initial sum, whatever is reordered or lost, when applications send no data, but may close, listen and unlisten |
| TcpEcho.TextEchoes | src/main.c:18-25 | from inside `tcp_in` the echo handler sends back what was delivered |
| TcpEcho.ListeningIsEchoState | src/main.c:47-49 | after start-up the echo invariant holds |
| TcpEcho.ServeEchoes | src/main.c:18-25 | in every run each live connection has sent exactly the bytes delivered to it |
| TcpEcho.EchoLevel | src/main.c:18-25 | with a conforming peer, while established, `snd_nxt` - (ISS + 1) equals `rcv_nxt` - (IRS + 1) and the sent bytes are the prefix received |
| TcpSession.SessionProgress | src/tcp.c:112-228 | every chunk of a client's session so far is delivered and echoed, however often the client repeats earlier segments and whatever the host does for others in between, up to the timeout of the connection |
| TcpSession.SessionCompletes | src/tcp.c:112-228 | connect, talk, close, at any clock readings up to the timeout, with any of the client's segments repeated and any other traffic and calls in between: everything delivered, everything echoed, connection removed by acknowledgement |
| TcpSession.AgainTurn | src/tcp.c:165-201 | a repeated SYN in SYN_RECEIVED, or any earlier segment later on, leaves the session where it is |
| TcpSession.ServiceOpens | src/main.c:47-49 | after start and `tcp_listen` a client finds the listener at any time, and room |
| TcpSession.FirstSession | src/main.c:47-49 | so from start and `tcp_listen` on, the first session completes |
| TcpEngine.ReadSegment | src/tcp.c:114-130 | the length, offset and checksum tests and the field reads |
| TcpEngine.WireDecodes | src/tcp.c:75-98 | what `ip_out` was given is one packet for each segment sent, in order, to its peer, which decodes it to those ports and that segment |
| TcpEngine.Engine.constructor | src/tcp.c:271-278 | the fresh module is an initial state with 64 connection slots, the timeout and the first initial number from the clock |
| TcpEngine.Engine.Emit | src/tcp.c:75-98 | the bytes given to `ip_out` are the encoding of the segment, or -1 and nothing sent if too long |
| TcpEngine.Engine.TcpReset | src/tcp.c:100-110 | in place, no answer to a reset, else the one reset |
| TcpEngine.Engine.NoConnection | src/tcp.c:134-155 | in place, the whole new state for an arrival without a connection, full table included |
| TcpEngine.Engine.InSynReceived | src/tcp.c:163-176 | in place, through the record, the handshake step |
| TcpEngine.Engine.AcceptText | src/tcp.c:203-210 | in place, acceptance, acknowledgement and hand-over |
| TcpEngine.Engine.CallHandler | src/tcp.c:209 | re-entrant calls in the middle of `tcp_in`: the script's effect, and pointers into the table stay good |
| TcpEngine.Engine.OnFin | src/tcp.c:212-227 | in place, on the record as the handler left it |
| TcpEngine.Engine.OnText | src/tcp.c:195-227 | in place, from the sequence test to the FIN |
| TcpEngine.Engine.OnSegment | src/tcp.c:132-228 | in place, the whole of `tcp_in` after decoding |
| TcpEngine.Engine.TcpIn | src/tcp.c:112-228 | in place, with decoding: a packet that fails a test changes nothing |
| TcpEngine.Engine.TcpSend | src/tcp.c:242-254 | in place; 0 exactly on a live established connection with data that is not a null pointer of positive length |
| TcpEngine.Engine.TcpClose | src/tcp.c:256-269 | in place; 0 exactly on a live established connection |
| TcpEngine.Engine.TcpListen | src/tcp.c:230-235 | in place; fails only for a null handler |
| TcpEngine.Engine.TcpUnlisten | src/tcp.c:237-240 | in place, removal of the port |
| Stack.FrameArrives | src/ip.c:106-204 | what one host's IP layer frames comes up at the other host as protocol, source and bytes |
| Stack.SegmentArrives | src/tcp.c:75-130 | a TCP segment of up to 1460 bytes arrives at the peer's `tcp_in` unchanged, through IP and Ethernet |
| Stack.DatagramArrives | src/udp.c:56-102 | a UDP datagram of up to 1472 bytes arrives at the handler of its port, through IP and Ethernet |

## Left out

Preconditions that the source does not test (it ignores the result of `buf_add_header` and `buf_add_padding`):

- Ethernet.Nic.EthernetOut: asks for room in the buffer for header and padding.
- IpPackets.IpLayer.IpFragmentOut: asks for room in front for the header. It says where `arp_out` leaves the window, not what is in it.
- IpPackets.IpLayer.IpOut: asks for room in front for the header of a packet of one fragment.
- Udp.UdpLayer.UdpOut: asks for a length of 16 bits and for room in front for both headers. What `ip_out` leaves in the buffer is open.
- Udp.UdpChecksum: asks for twelve bytes in front of the datagram and, for odd lengths, one behind it.
- Udp.UdpLayer.UdpIn: asks for the IP header in front of the window, where `ip_in` leaves it, and for one byte behind it.
- Arp.ArpLayer.ArpOut: asks for the same room as the Ethernet layer.

Members stated for less than every input:

- TcpEcho.ServeEchoes: takes segments with less than 65536 bytes of data, as IP delivers them, because the handler cuts the length to 16 bits.
- TcpEngine.Engine.TcpIn: the handler's calls do not include `tcp_in` itself, and the segment is read into values before they are made.
- Arp.ArpLayer.FlushQueue: sends the parked packet from a copy of its slot, since slots hold packets by value here.
- SlotMap.Map.Get: returns the position of the slot in place of a pointer; the bytes of slots are the subject of MapLayout.
- SlotMap.Map.ForEach: returns the visited entries in place of running a callback, which could change the map.

Parts of the repository that are not modelled:

- Driver, capture library, logging, printing, conversions of addresses and times to text: input and output.
- `ip_fragment_in` and `ip_fragment_combine`: they do not reassemble. `ip_in` ends in the verdict `Piece` for a fragment, and reassembly is a specification on the sender's side.
- ICMP: `ip_in` and `udp_in` end in a verdict where they send an ICMP error; echo replies are not modelled.
- The dispatch table of `net_in`; all three transport protocols count as registered.
- The gratuitous request of `arp_init`. The ARP template always carries `NET_IF_IP`, also when another address was configured; the model keeps the two apart as `ownIp` and `localIp`.
- Clock readings within one call: `map_get` reads the clock for every slot, the model once per call.
- TCP window, urgent pointer and options: ignored by the source as well. There is no TIME_WAIT and no retransmission, data arriving in FIN_WAIT_1 or FIN_WAIT_2 is taken without being delivered or acknowledged on arrival, and a connection's time stamp is set only when it is opened; the model does the same.
- `udp_send` and `net_init`: they only call what is modelled.
- `ping`, interface selection and `ip_prefix_match`: they would add easy members only.
