# Verified core of libtrace

A Dafny model of the parts of libtrace where most of its reasoning is: how the results of packet
processing threads are combined, how packets are hashed to threads, how the RT stream is cut into
packets, how headers are decoded, skipped and stripped, and the arithmetic of checksums, bit fields,
timestamps, capture rings and pcap files. The model is of a little-endian host with a
`LIBTRACE_PACKET_BUFSIZE` of 65536 (`lib/libtrace.h.in`).

`dafny verify dfyconfig.toml` verifies the whole project.

## How it is modelled

- **Combiners** (`CombinerModel`, `CombinerLooks`, `CombinerLosses`, `CombinerOrder`, `CombinerFlush`,
  `CombinerQueues`, `CombinerOrdered`, `CombinerUnordered`, `KeySort`, `CombinerSorted`, `CombinerRuns`). The
  combiner is an
  object with one queue per thread. Every access of the reader to a queue is preceded by an arbitrary
  number of publications by the other threads (`Combine.Interfere`), each taking the next result of what
  that thread will ever publish, so a theorem about a run is a theorem about every interleaving. A ghost
  log records every result that is taken from a queue and whether it was delivered; a second record has
  every look at a counting tick and every return from a read, with the number of results gone at that
  moment. A run of the ordered combiner can be cut short, where the code would take from queue -1. A result
  is a key with a kind: interval
  tick, count tick, or data. The flag `parallel` says that counting ticks do not follow the packet
  order; `combiner_unordered` never asks and treats every trace that way.
- **Toeplitz hashing** (`Toeplitz`, `ToeplitzFlows`). Key expansion and hashing are the in-place loops of
  the source on 8-bit and 32-bit vectors; the reference is the hash of the RSS specification, in which
  bit `i` of the data selects the 32-bit window of the key at bit `i`.
- **RT framing** (`RtFraming`). A client object with its buffer and two positions. `recv` returns an
  arbitrary part of what is still to come, an interruption, or a failure, of which there are given numbers.
  The reference is an encoder of messages.
- **Decoding** (`Bytes`, `Layers`, `LayerStacks`, `Transport`, `PacketLayers`, `Datagrams`). A pointer with its type
  and the remaining count is a `Cursor`; what lies beyond memory at hand reads as 0. The packet object
  has the caches of layers 2, 3 and 4 and of the lengths. The reference is an encoder: `LayerStacks.Stack`,
  `Transport.Chain`, `Transport.Sent` and `Datagrams.Datagram` describe what a sender nests.
- **Checksum**, **BitReader**, **NzixTime**, **ErfTime**, **MmapRing**, **RingSizing**, and pcap files
  (`PcapFields`, `LinkTypes`, `PcapFile`). Wrap-around at 32 and 64 bits is written out. The machine word of
  the bit reader is a list of 64 bits. The kernel side of the ring is a method that may run between any
  two polls of the reader.

## Where the code does not do what it is for

Each of these is proved, with the exact condition under which the promise holds:

- `libtrace_vector_qsort` (`lib/data-struct/vector.c:135-138`) passes the element size, 24 bytes for a
  result, as the number of elements. The sorted combiner therefore sorts the first 24 slots of its
  vector, used or not (`CombinerSorted.SortExactly`, `LastOneOutOfPlace`, `StaleSlotWins`).
- In the final flush of the ordered combiner a queue whose first entry is a tick that is not merged sits
  out the pass, so data behind ticks can come out late. Data is in order if and only if queues that sit out
  fewer passes hold no larger keys than those that sit out more; how many a queue sits out follows from the
  queues and the last counting tick when the flush begins, and is the number of leading ticks in a parallel
  trace (`CombinerOrdered.ReadFinal`, `CombinerFlush.WaitIsLead`, `CombinerRuns.TickDelaysItsQueue`); without
  ticks in the queues it always is.
- A count tick that a reader of a trace that is not parallel has looked at is taken for a duplicate the
  next time. It is delivered if and only if its key exceeded every count tick looked at before its first
  look and no read other than the final one returned between that look and its leaving the queue
  (`CombinerRuns.RunOrdered`, with `CombinerModel.Deserves`; `CombinerOrder.StrandedTick`). A read loses at most
  one such tick per thread, and none of at least one thread, so that `n` threads lose at most `n - 1` per read
  (`CombinerLosses.OnePerThread`, `CombinerLosses.LossesBounded`).
- The scan of the ordered combiner finds no queue to take from if and only if the first queue has
  nothing to merge and all keys at the heads of the others are UINT64_MAX (`CombinerOrdered.LeastExactly`). Only
  the final read then goes on, and it fails if and only if one of its passes begins like that
  (`CombinerOrdered.ReadFinal`, `CombinerFlush.MaxKeyFails`).
- `trace_get_layer3` and `trace_strip_packet` know IPv4 only behind PPPoE: IPv6 is found with type 0, which
  stripping writes into the Ethernet header, and MPLS is not entered. Ethernet inside of MPLS is not entered
  either, since `lib/protocols_l3.c:272` compares a pointer with 0, and is taken for IP if its first nibble
  looks like it. The innermost packet is found, and left by stripping, if and only if there is nothing of
  this in the packet; with IPv6 behind PPPoE, only the type is wrong (`LayerStacks.Layer3Finds`,
  `LayerStacks.StripYieldsInnermost`, `LayerStacks.Ipv6InSession`, `LayerStacks.FrameInMpls`).
- `trace_strip_packet` shortens the capture length but not the wire length. Headers stripped from a
  packet captured with padding beyond its wire length change what remains of layer 3, and leave a filled
  layer 3 cache stale (`Layers.StripPreservesNetwork`, `LayerStacks.PaddedStrips`,
  `PacketLayers.Packet.StripPacket`).
- `trace_get_payload_from_ip` reads fields of the header before it looks at how much was captured; its
  answer depends on captured bytes alone exactly under `Transport.IpDecided`
  (`Transport.IpIndependentExactly`).
- The length of an authentication header is taken in units of 8 bytes like that of other extension
  headers, and not 4 as section 2.2 of RFC 4302 says. Such a header is passed correctly if and only if
  its length field is 0, which no header of that format has (`Transport.LengthExactly`,
  `Transport.AuthenticatedExactly`, `Transport.AuthenticatedTcp`).
- Where the IPv4 walk finds no transport header in later fragments, the IPv6 walk returns their data as one
  (`Transport.LaterFragment6`).
- `trace_get_payload_length` counts IPv6 extension headers as payload, and is right if and only if there are
  none (`Datagrams.PayloadFinds`).
- The IPv6 pseudo header is summed with the length and protocol of the fixed header. The checksum is that of
  the upper layer if and only if the bytes of extension headers make up for the difference of the protocol
  numbers modulo 0xFFFF (`Checksum.Pseudo6Exactly`, `Checksum.HopByHopUdp`). Segments in IPv6 in IPv4 are summed
  with the outer pseudo header (`Checksum.TunnelledExactly`, `Checksum.TunnelledTcp`).
- Both checksum routines take the length of the header a second time from a copy on the stack. It is in the
  copy, and the answer does not depend on what the stack held, if and only if an IPv4 header has at least one
  word and a TCP header at least four (`Checksum.Determined3Exactly`, `Checksum.DeterminedExactly`).
- A pcap file is refused for its version only if both version numbers are wrong
  (`PcapFile.StartReads`).
- Header and body of a pcap record are read into one buffer of 65536 bytes, but only the length of the
  body is compared with that. A record is read within the buffer if and only if its body has at most
  65520 bytes (`PcapFile.NextReads`, `PcapFile.JustTooLong`).
- NZIX times go wrong for gaps of half a wrap or more (`NzixTime.GapExactly`, `NzixTime.HalfWrapGap`), and
  ring sizes do not work out if and only if a block of the order asked for has no room for a frame
  (`RingSizing.CalculateBuffers`, `RingSizing.JumboFrames`).

## Model

| member | source | states |
|---|---|---|
| `CombinerModel.PublishKeeps` | lib/combiner_ordered.c:21-30 | publishing keeps the whole invariant: per-thread FIFO conservation, tick de-duplication, and queues as suffixes of what is still owed |
| `CombinerModel.PopConserves` | lib/combiner_ordered.c:152-158 | taking a result from a queue keeps, for every thread, delivered + dropped + queued + unpublished equal to what the thread publishes, in order |
| `CombinerLooks.PopTicks` | lib/combiner_ordered.c:152-158 | taking out data, or a count tick that the merge emits or drops, keeps interval ticks the running maxima of those taken and count ticks delivered exactly if they deserve it |
| `CombinerQueues.Combine.Publish` | lib/combiner_ordered.c:21-30 | the result goes to the end of its thread's queue and nowhere else |
| `CombinerOrder.PeekKeeps` | lib/combiner_ordered.c:32-96 | looking at a queue, which may consume ticks, keeps conservation, de-duplication and the record |
| `CombinerOrder.PeekMerged` | lib/combiner_ordered.c:32-96 | looking at a queue emits no result that takes part in the order |
| `CombinerOrder.PeekDeduplicates` | lib/combiner_ordered.c:49-92 | looking at a tick keeps interval ticks (and count ticks of parallel traces) the running maxima of those taken, and other count ticks delivered exactly if they deserve it |
| `CombinerOrder.StrandedTick` | lib/combiner_ordered.c:70-92 | two threads, a read that looks at a count tick, emits the other thread's result and returns, and a second look: the tick was fresh, was left behind, and is dropped |
| `CombinerOrder.ReturnKeeps` | lib/combiner_ordered.c:147-194 | a read that is not the final one leaves behind what it looked at and did not emit, and some queue has nothing that it looked at; a final one leaves nothing behind |
| `CombinerOrder.HeadIsLeast` | lib/libtrace_parallel.h:1363-1375 | under the ordering contract the head of a queue is below everything its thread has queued or will ever publish |
| `CombinerOrder.EmitKeepsOrder` | lib/combiner_ordered.c:147-158 | emitting the least head keeps the output in order and below all that is queued or still to come |
| `CombinerOrdered.PeekQueue` | lib/combiner_ordered.c:32-96 | the method does what the specification of one look does, after publications of other threads |
| `CombinerOrdered.NextMessage` | lib/combiner_ordered.c:98-111 | looks until a result is ready or the queue is empty, and returns the key of the head |
| `CombinerOrdered.Scan` | lib/combiner_ordered.c:121-142 | the table of live queues and cached keys is right, and the minimum is the least of them |
| `CombinerOrdered.LeastExactly` | lib/combiner_ordered.c:121-142 | the scan finds the least key, and finds none if and only if queue 0 is not live and all live keys are UINT64_MAX |
| `CombinerOrdered.MergeStep` | lib/combiner_ordered.c:147-193 | one emission takes the least head, re-reads that queue only, and keeps the table and the minimum right |
| `CombinerOrdered.ReadInternal` | lib/combiner_ordered.c:114-194 | a non-final read keeps order and stops only for want of a queue: when it last came by some queue there was nothing to merge there; if nobody publishes and all queues have something to merge it sends at least one result and leaves exactly one queue empty, otherwise it takes a tick from a queue at most; a final one fails exactly if its scan finds no queue for what there is to merge, otherwise takes at least one entry from a nonempty state, empties exactly the queues whose head was ready, in order, and takes the tick off the others |
| `CombinerOrdered.Read` | lib/combiner_ordered.c:196-198 | every read, whatever the keys, keeps the invariant and, under the ordering contract, the order of the output against everything queued or to come; it stops only for want of a queue, and goes on until exactly one queue is empty if nobody publishes and all queues have something to merge |
| `CombinerOrdered.ReadFinal` | lib/combiner_ordered.c:200-213 | terminates with all queues empty, or fails, exactly if a pass of the flush fails; data is in order if and only if queues that sit out fewer passes hold no larger data than others, whatever the trace, and all that is merged if the same goes for what the queues send; in parallel traces passes are leading ticks |
| `CombinerLooks.FlushLosesNone` | lib/combiner_ordered.c:200-213 | a count tick first looked at after the last read that was not final is delivered if and only if it is fresh |
| `CombinerLooks.OnceEach` | lib/combiner_ordered.c:70-92 | no two count ticks with the same key are delivered |
| `CombinerLosses.OnePerThread` | lib/combiner_ordered.c:70-92 | a read that is not final leaves behind at most one count tick of a thread |
| `CombinerLosses.StrandedByRead` | lib/combiner_ordered.c:147-194 | it leaves behind none of at least one thread, hence at most one less than there are threads |
| `CombinerLosses.LossesBounded` | lib/combiner_ordered.c:114-213 | a run loses at most that many fresh count ticks for each read before the final one, and none with a single thread |
| `CombinerFlush.DataConserved` | lib/combiner_ordered.c:98-194 | in every reachable state the data delivered and the data left are together the data of all inputs |
| `CombinerFlush.WaitAfter` | lib/combiner_ordered.c:200-213 | a queue is live in the pass after those it sits out, and in no other |
| `CombinerFlush.WaitIsLead` | lib/combiner_ordered.c:200-213 | in a parallel trace a queue sits out as many passes as it has leading ticks |
| `CombinerFlush.MaxKeyFails` | lib/combiner_ordered.c:121-158 | the flush of a single result with key UINT64_MAX fails, unless the first thread has published it |
| `CombinerFlush.FlushPass` | lib/combiner_ordered.c:200-213 | through every pass results come out in the order in which their queues waited, and only results of different waits after the start of the flush can be in the wrong order |
| `CombinerFlush.FlushDone` | lib/combiner_ordered.c:200-213 | at the end the output is sorted if and only if waits are in step with the keys queued at the start, for data, and with the keys sent, for all that is merged |
| `CombinerUnordered.TakeKeeps` | lib/combiner_unordered.c:28-55 | delivering or dropping the head of a queue keeps conservation and de-duplication |
| `CombinerUnordered.Read` | lib/combiner_unordered.c:28-55 | finds every queue empty once, whatever is published meanwhile, and leaves none when no thread publishes any more |
| `KeySort.SortSorts` | lib/combiner_sorted.c:28-38 | sorting by key gives a sorted permutation |
| `KeySort.SortedUnique` | lib/combiner_sorted.c:28-38 | a sorted sequence of keys is determined by its elements |
| `CombinerSorted.PushBack` | lib/data-struct/vector.c:25-36 | appends to the contents, whatever capacity there is, and leaves the unused slots behind as they were |
| `CombinerSorted.Append` | lib/data-struct/vector.c:79-108 | moves the contents of one vector behind those of the other |
| `CombinerSorted.QSort` | lib/data-struct/vector.c:135-138 | the first 24 slots, used or not, are replaced by a sorted permutation of themselves and the rest are left |
| `CombinerSorted.SortExactly` | lib/data-struct/vector.c:135-138 | the contents come out in key order, with the keys they had, if and only if unused slots among the first 24 are not below used ones and slots from 24 on continue the order |
| `CombinerSorted.LastOneOutOfPlace` | lib/data-struct/vector.c:135-138 | with 25 results, of which the last is below any other, it stays last and the contents are not in key order |
| `CombinerSorted.StaleSlotWins` | lib/data-struct/vector.c:135-138 | with a single result, a smaller key left in an unused slot takes its place |
| `CombinerSorted.SortedCombiner.Publish` | lib/combiner_sorted.c:19-22 | appends to the thread's vector |
| `CombinerSorted.SortedCombiner.Gather` | lib/combiner_sorted.c:52-56 | the first vector gets the contents of all, in thread order, and the others are empty |
| `CombinerSorted.SortedCombiner.ReadFinal` | lib/combiner_sorted.c:48-73 | what is sent are the data results of the vector after the sort of its first 24 slots, which is in key order exactly if the sort condition holds |
| `CombinerRuns.RunIsFaithful` | lib/combiner_ordered.c:215-224 | at the end of a run every thread's results were taken in order, all data was delivered once, and interval ticks are the running maxima |
| `CombinerRuns.TicksIncrease` | lib/combiner_ordered.c:49-92 | over a whole run the ticks delivered have strictly increasing keys |
| `CombinerRuns.RunOrdered` | lib/combiner_ordered.c:114-213 | for every interleaving of publications with any number of reads and the final flush, whatever the keys: where the flush began, with what had been sent, taken, queued and looked at by then; whether the flush fails; conservation, FIFO, interval ticks as running maxima (count ticks too for parallel traces); otherwise count ticks delivered exactly if fresh and not left behind by one of these reads, every look and return being placed in the run, with the bound on those lost; order of what the reads sent, and of the whole output exactly if waits are in step with keys |
| `CombinerRuns.TickFreeFlush` | lib/combiner_ordered.c:200-213 | queues without ticks have their leads in order |
| `CombinerRuns.TickDelaysItsQueue` | lib/combiner_ordered.c:200-213 | flushing a queue with a tick in front of a small key, and another with a larger key, sends the larger first |
| `CombinerRuns.ReadSendsLeast` | lib/combiner_ordered.c:147-158 | of two results waiting, one read sends the one with the smaller key and leaves the other |
| `CombinerRuns.RunUnordered` | lib/combiner_unordered.c:28-55 | conservation, FIFO and ticks of both kinds as running maxima, for every interleaving and every trace |
| `CombinerRuns.RunSorted` | lib/combiner_sorted.c:19-73 | the sorted combiner sends the data of the published results after that sort, in key order exactly if the sort condition holds |
| `CombinerRuns.MergeEqualsSort` | lib/combiner_sorted.c:28-73 | the merged keys equal the keys sent by the sorted combiner if and only if the sort condition holds and no tick left in an unused slot was sorted in |
| `CombinerRuns.MergeAgainstSort` | lib/combiner_ordered.c:114-213 | running both combiners on the same tick-free publications: the merge is sorted and complete, and agrees with the sorted combiner under that condition exactly; from 24 results on no unused slot is sorted in |
| `Toeplitz.ShiftLeft` | lib/hash_toeplitz.c:23-40 | shifts a whole key left by one bit, in place |
| `Toeplitz.Conf.ExpandKey` | lib/hash_toeplitz.c:23-46 | entry `i` of the cache is the byte-swapped 32-bit window of the key at bit `i`, zero-filled at the end |
| `Toeplitz.Conf.CreateBiKey` | lib/hash_toeplitz.c:61-71 | the key is the two bytes of the value, 20 times over |
| `Toeplitz.Hash` | lib/hash_toeplitz.c:86-98 | the nested loops compute the exclusive-or of the cache entries that the bits of the data select |
| `Toeplitz.FirstHash` | lib/hash_toeplitz.c:100-103 | likewise from offset 0 |
| `Toeplitz.HashIsRss` | lib/hash_toeplitz.c:23-103 | the hash is the byte-swapped RSS hash of the data under the key |
| `Toeplitz.FoldConcat` | lib/hash_toeplitz.c:86-98 | hashing a prefix and going on at the matching offset is hashing the concatenation |
| `Toeplitz.FoldLinear` | lib/hash_toeplitz.c:86-98 | the hash of an exclusive-or is the exclusive-or of the hashes |
| `ToeplitzFlows.BiKeyPeriodic` | lib/hash_toeplitz.c:61-71 | under a two-byte key the expanded cache repeats every 16 entries up to entry 288, which covers all that is hashed |
| `ToeplitzFlows.ExchangeFields` | lib/hash_toeplitz.c:129-164 | with such a cache, two fields of equal even length can be exchanged |
| `ToeplitzFlows.HashPacket` | lib/hash_toeplitz.c:105-171 | the packet hash is that of addresses and, where ports are hashed and present, ports; 0 for other protocols |
| `ToeplitzFlows.BothDirectionsAlike` | lib/hash_toeplitz.c:105-171 | for IPv4 and IPv6, every choice of hashed fields and every packet, both directions of a flow hash alike |
| `ToeplitzFlows.SymmetricExactly` | lib/hash_toeplitz.c:86-98 | a cache hashes exchanged fields alike if and only if it repeats at the distance of the fields |
| `ToeplitzFlows.HashBothWays` | lib/hash_toeplitz.c:61-171 | creating a key, expanding it and hashing a packet and its reverse gives the same hash, and with its bytes swapped that is the RSS hash of the fields under that key |
| `ToeplitzFlows.FlowHashed` | lib/hash_toeplitz.c:105-171 | of a written IPv4 or IPv6 packet with ports, source and destination address are hashed if anything is asked for that version of IP, and the ports behind them if they are asked for its protocol |
| `ToeplitzFlows.HashFlow` | lib/hash_toeplitz.c:61-171 | a packet of a flow and one of its reply hash to the same value, the swapped RSS hash of source, destination and ports under the repeated key |
| `RtFraming.ParseUnique` | lib/rt_protocol.h:91-103 | there is only one way to cut a stream into header-length frames with an incomplete rest |
| `RtFraming.MessageFrames` | lib/rt_protocol.h:91-103 | a message that a sender writes is a frame with its type and the length of its payload |
| `RtFraming.MessagesParse` | lib/rt_protocol.h:91-103 | a stream of messages, the last of which may be incomplete, is cut into these messages |
| `RtFraming.Client.Receive` | lib/format_rt.c:557-583 | what is received lands behind what is buffered, within the room offered, which is never 0 |
| `RtFraming.Client.MakeRoom` | lib/format_rt.c:524-555 | unread bytes survive the move to a new buffer, and packets handed out stay as they are |
| `RtFraming.Client.Read` | lib/format_rt.c:521-587 | unread bytes followed by the rest of the stream stay the same |
| `RtFraming.Client.HandOut` | lib/format_rt.c:616-654 | the packet handed out is the next frame of the stream, in place, and the bytes of all packets handed out earlier are unharmed |
| `RtFraming.Client.Sort` | lib/format_rt.c:626-652 | data and the messages a server may send are accepted, other types are not |
| `RtFraming.Client.GetNextPacket` | lib/format_rt.c:591-656 | hands out exactly the next frame; or fails with an incomplete one buffered, and only if a receive failed or there is nothing more to receive |
| `RtFraming.Session` | lib/format_rt.c:521-656 | for every stream, every way of receiving it and any number of calls, the packets are a prefix of the unique parse; all of it once the stream has run dry, and after one call more than there are frames and failures |
| `Layers.Walk` | lib/protocols_l3.c:260-286 | the walk over VLAN, MPLS and PPPoE headers terminates, keeps offset plus remaining, and stops only where nothing more can be skipped |
| `Layers.Layer3` | lib/protocols_l3.c:216-298 | a layer 3 pointer keeps offset plus remaining equal to the start of the packet plus its length, with something remaining |
| `Layers.WalkLocal` | lib/protocols_l2.c:82-101 | the walk depends on the captured bytes only |
| `Layers.CorruptWire` | lib/trace.c:1064-1081 | a packet with a negative wire length is decoded and stripped like one captured whole |
| `Layers.StrippedBytes` | lib/protocols_l2.c:184-193 | stripping keeps the addresses, writes the final type, ends the packet where it ended, and leaves all bytes from layer 3 on |
| `Layers.StripPreservesNetwork` | lib/protocols_l2.c:103-197 | pointer, type and remaining of layer 3, or its absence, are the same after stripping if and only if no headers were taken off a packet with padding beyond its wire length |
| `Layers.StripKeepsBytes` | lib/protocols_l2.c:186-191 | the bytes of layer 3 are the same |
| `Layers.StripIdempotent` | lib/protocols_l2.c:103-197 | stripping twice is stripping once |
| `LayerStacks.SkipEnters` | lib/protocols_l2.c:82-349 | skipping the outermost header of an encoded stack leaves the encoding of the inner one, with its type unless that is anything but IPv4 behind PPPoE or an Ethernet frame behind MPLS that starts like IP |
| `LayerStacks.Layer3Finds` | lib/protocols_l3.c:216-298 | for every nesting of VLAN, MPLS, PPPoE and bridged Ethernet headers the innermost packet is found, with its type and length, if and only if PPPoE carries IPv4 only and MPLS no Ethernet; pointer and length are right if and only if PPPoE carries no MPLS and MPLS no Ethernet |
| `LayerStacks.StripYieldsInnermost` | lib/protocols_l2.c:103-197 | stripping an encoded stack leaves the Ethernet encoding of what the walk ends at, and that of its innermost packet in the same cases exactly |
| `LayerStacks.PaddedStrips` | lib/protocols_l2.c:184-193 | stripping any nested packet captured with padding makes as much padding part of layer 3 as headers were taken off |
| `LayerStacks.StopExactly` | lib/protocols_l2.c:202-328 | where the walk ends is the innermost packet, and the type it ends with is right, exactly under these conditions |
| `LayerStacks.Ipv6InSession` | lib/protocols_l2.c:320-328 | IPv6 in a PPPoE session is found with type 0, and the stripped frame has that type |
| `LayerStacks.FrameInMpls` | lib/protocols_l3.c:268-276 | an Ethernet frame inside of MPLS is returned as layer 3, with the type its first nibble suggests |
| `Transport.FromIp` | lib/protocols_l3.c:108-144 | the payload of an IPv4 header keeps offset plus remaining |
| `Transport.IpFinds` | lib/protocols_l3.c:108-144 | for every IPv4 header written by a sender the payload is found behind the options with its protocol, and there is none for later fragments |
| `Transport.IpIndependentExactly` | lib/protocols_l3.c:108-144 | the answer is a function of the captured bytes if and only if these decide it |
| `Transport.Extensions` | lib/protocols_l3.c:146-214 | the walk over extension headers terminates, keeps offset plus remaining, and ends at none |
| `Transport.Ip6Local` | lib/protocols_l3.c:146-214 | the IPv6 walk depends on captured bytes only |
| `Transport.LengthExactly` | lib/protocols_l3.c:164-203 | an extension header is taken for as long as it is unless it is an authentication header with a length field other than 0, which is taken for longer by 4 bytes per unit |
| `Transport.Ip6Finds` | lib/protocols_l3.c:146-214 | behind any chain of extension headers whose authentication headers have length field 0 the upper protocol and its data are found |
| `Transport.AuthenticatedExactly` | lib/protocols_l3.c:164-203 | where an authentication header comes last, the upper layer is found if and only if its length field is 0 |
| `Transport.AuthenticatedTcp` | lib/protocols_l3.c:164-203 | TCP behind an authentication header of 24 bytes is taken to start 16 bytes late |
| `Transport.LaterFragment6` | lib/protocols_l3.c:193-207 | for a later fragment the IPv6 walk goes on into the data and returns it as the header announced |
| `Transport.TransportOf` | lib/protocols_transport.c:151-211 | a transport pointer keeps offset plus remaining, IPv6 in IPv4 included; `Datagrams.TransportFinds` says what it finds |
| `Transport.StripPreservesTransport` | lib/protocols_transport.c:151-211 | stripping does not change the transport pointer, protocol or remaining count |
| `Transport.NextOption` | lib/protocols_l3.c:318-353 | the option parser keeps pointer plus length, moves on, and never goes past the end |
| `Transport.OptionsFind` | lib/protocols_l3.c:318-353 | parsing written options gives them back, codes and data, in order, and nothing more if and only if no option follows: no bytes, an end of list, or a length below 2 or beyond the end |
| `Transport.OptionsLocal` | lib/protocols_l3.c:318-353 | the option parser depends on no byte behind the options |
| `Datagrams.TransportFinds` | lib/protocols_transport.c:151-211 | for every IPv4, IPv6 and IPv6 in IPv4 datagram the upper layer is found with its protocol and length; there is none for other types and later IPv4 fragments |
| `Datagrams.SegmentFinds` | lib/protocols_transport.c:151-211 | likewise for whole Ethernet frames with any headers in between that layer 3 is found behind |
| `Datagrams.NoTransportInSession` | lib/protocols_transport.c:200-203 | IPv6 in a PPPoE session has no transport header |
| `Datagrams.PayloadFinds` | lib/protocols_transport.c:62-146 | the payload length of a whole packet is what is behind the transport header, and the extension headers on top of that |
| `Datagrams.NoPayload` | lib/protocols_transport.c:62-146 | it is 0 for other protocols and for transport headers cut short |
| `PacketLayers.Packet.GetLayer2` | lib/protocols_l2.c:437-483 | returns the start and the length of the packet, from the cache or not, and keeps all caches right |
| `PacketLayers.Packet.GetLayer3` | lib/protocols_l3.c:216-298 | returns what a fresh walk returns, from the cache or not, and keeps all caches right |
| `PacketLayers.Packet.GetTransport` | lib/protocols_transport.c:151-211 | likewise for the transport header, which `Datagrams.SegmentFinds` relates to encoded packets |
| `PacketLayers.Packet.GetPayloadLength` | lib/protocols_transport.c:62-146 | returns what a fresh computation from layer 3 and transport header returns, from the cache or not, and keeps all caches right |
| `PacketLayers.Packet.Ip6Payload` | lib/protocols_l3.c:146-214 | the loop computes the walk over extension headers |
| `PacketLayers.Packet.PassHeaders` | lib/protocols_l2.c:134-182 | the loop ends where the layer 3 walk ends, having counted the bytes removed |
| `PacketLayers.Packet.MoveHeader` | lib/protocols_l2.c:186-191 | the overlapping move gives the retyped header at its new place |
| `PacketLayers.Packet.StripPacket` | lib/protocols_l2.c:103-197 | the in-place operation is the stripping specified, and the caches of headers and lengths stay right if and only if layer 3 was not cached or its view stays the same |
| `PacketLayers.Packet.ClearCache` | lib/trace.c:2274-2290 | empties the caches of headers and lengths and keeps the packet |
| `PacketLayers.Session` | lib/protocols_transport.c:151-211 | in any sequence of accessor calls and cache clearing on any packet, and of stripping on packets without padding, every call returns what a fresh computation would |
| `Checksum.AddChecksum` | lib/checksum.c:35-53 | the sum of the host's 16-bit words and an odd last byte, without 32-bit overflow |
| `Checksum.FinishChecksum` | lib/checksum.c:55-60 | at most two folds; the complement of the sum modulo 0xFFFF, with 0 and 0xFFFF kept apart |
| `Checksum.SwapCarried` | lib/protocols_l3.c:720-724 | swapping the folded sum of host words gives the folded sum of network words |
| `Checksum.ChecksumBuffer` | lib/checksum.c:62-67 | is the checksum of RFC 1071, section 1, once in host order |
| `Checksum.VerifiesExactly` | lib/protocols_l3.c:715-724 | a packet sums to 0 if and only if its field holds the checksum of the packet with the field zeroed, or the other zero |
| `Checksum.HostSumParts` | lib/protocols_transport.c:537-550 | the sum of an even-length part and a second part is the sum of their concatenation |
| `Checksum.Ipv4PseudoChecksum` | lib/checksum.c:69-85 | is the sum of the IPv4 pseudo header |
| `Checksum.Ipv6PseudoChecksum` | lib/checksum.c:87-105 | is the sum of the IPv6 pseudo header |
| `Checksum.ChecksumLayer3` | lib/protocols_l3.c:686-730 | is the RFC 1071 checksum of the IPv4 header in memory with its checksum field zeroed, however long it says it is, if it has a word at all; there is none if and only if less than 20 bytes were captured |
| `Checksum.ChecksumTransport` | lib/protocols_transport.c:450-553 | is the RFC 1071 checksum of pseudo header, header with zeroed field and payload, unless a TCP header has less than 4 words; for a whole segment behind an IPv4 header, or an IPv6 header without extensions, with right lengths, of the pseudo header of RFC 793 or RFC 2460 and the segment with 0 for its checksum; there is none if and only if the IP header is cut short, the protocol is not covered, the transport header is cut short, or the announced payload was not captured or is negative |
| `Checksum.WholeSummed` | lib/protocols_transport.c:450-553 | what is summed of a whole segment has the checksum of its own pseudo header, with its own length, and itself |
| `Checksum.Pseudo6Exactly` | lib/checksum.c:87-105 | the checksum is the one with the pseudo header of the upper layer (section 8.1 of RFC 2460) if and only if extension headers make up for the difference of protocol numbers modulo 0xFFFF, unless only zeros are summed |
| `Checksum.HopByHopUdp` | lib/checksum.c:87-105 | UDP behind a hop-by-hop header of 8 bytes has another checksum than the code computes |
| `Checksum.TunnelledExactly` | lib/protocols_transport.c:464-486 | for a segment in IPv6 in IPv4 the checksum with the outer pseudo header is the one with the inner if and only if addresses, lengths and protocols sum to the same modulo 0xFFFF |
| `Checksum.TunnelledTcp` | lib/protocols_transport.c:464-486 | they do not for a plain tunnelled TCP segment |
| `Checksum.Determined3Exactly` | lib/protocols_l3.c:711-721 | the IPv4 checksum does not depend on what the scratch buffer held if and only if the header has at least one word |
| `Checksum.DeterminedExactly` | lib/protocols_transport.c:490-500 | the transport checksum does not, if and only if it is not for a TCP header of less than 4 words |
| `Checksum.HeaderCutShort` | lib/protocols_transport.c:539-547 | a TCP header of which 8 bytes were captured has no checksum, although its payload length is 0 |
| `BitReader.LowOnesNumber` | libpacketdump/bitbuffer.c:45 | the mask is the number that the shift and subtraction give |
| `BitReader.BitsOfNumber` | libpacketdump/bitbuffer.c:31-32 | a byte's bits, most significant first, stand for it |
| `BitReader.PacketNumber` | libpacketdump/bitbuffer.c:31-32 | the bits of a packet stand for its bytes, most significant first |
| `BitReader.WholeBytes` | libpacketdump/bitbuffer.c:15-56 | a field of whole bytes holds their big-endian number |
| `BitReader.FieldValue` | libpacketdump/bitbuffer.c:15-56 | any field holds the packet, taken as a number, without the bits behind and before the field |
| `BitReader.FitsExactly` | libpacketdump/bitbuffer.c:15-56 | with less than a byte buffered a field can be read without a shift beyond the word exactly if it has 1 to 63 bits and fits behind what is buffered; 57 bits always do |
| `BitReader.Reader.Load` | libpacketdump/bitbuffer.c:27-42 | loading a byte keeps the list of bits to come and the alignment of the buffer |
| `BitReader.Reader.GetBit` | libpacketdump/bitbuffer.c:15-56 | returns the next bits, most significant first, and leaves the rest, with less than a byte buffered |
| `BitReader.Reader.NextHeader` | libpacketdump/bitbuffer.c:230-248 | the rewind gives back no byte: the next header starts at the first unused byte |
| `BitReader.ShortFieldsReadable` | libpacketdump/bitbuffer.c:123-254 | fields of 1 to 57 bits can always be read |
| `BitReader.Decode` | libpacketdump/bitbuffer.c:123-254 | decoding a protocol description shows what cutting the packet's bit list shows |
| `BitReader.Halves` | libpacketdump/bitbuffer.c:123-254 | two fields of 4 bits show the upper and the lower half of a byte |
| `NzixTime.Distance` | lib/format_legacy.c:426-438 | the shifted distance exceeds half of 32 bits exactly if the counters are half a wrap or more apart |
| `NzixTime.Clock.GetTimeval` | lib/format_legacy.c:440-466 | the time kept becomes the previous one with its lower 30 bits replaced, a wrap later if the counter jumped |
| `NzixTime.RightExactly` | lib/format_legacy.c:440-466 | a true time is reconstructed if and only if the counter jumps exactly when it has wrapped |
| `NzixTime.GapExactly` | lib/format_legacy.c:440-466 | for gaps up to a wrap: if and only if the gap is less than half a wrap, or half a wrap across the wrap-around |
| `NzixTime.HalfWrapGap` | lib/format_legacy.c:440-466 | a gap of half a wrap within a wrap puts the time a wrap ahead |
| `NzixTime.AskingTwice` | lib/format_legacy.c:440-466 | asking twice changes nothing |
| `NzixTime.Times` | lib/format_legacy.c:426-468 | for every stream with first time and gaps below 2^29 microseconds, each packet asked any number of times, all times are right across any number of wraps |
| `ErfTime.ToErfIs` | lib/trace.c:1100-1116 | no 64-bit overflow: seconds in the upper half, the scaled part in the lower |
| `ErfTime.FromErfIs` | lib/trace.c:1135-1150 | the part is in range, so that the carry never happens |
| `ErfTime.ThereAndBack` | lib/trace.c:1100-1150 | timeval and timespec keep their seconds through ERF and lose at most one unit, none exactly for multiples of 15625 and 1953125 |
| `ErfTime.ErfThereAndBack` | lib/trace.c:1165-1185 | ERF through timespec loses at most 5 fraction units, through timeval at most 4295 |
| `ErfTime.ToErfIncreases` | lib/trace.c:1100-1116 | conversion to ERF is strictly increasing |
| `ErfTime.FromErfIncreases` | lib/trace.c:1135-1185 | conversion from ERF reverses no order |
| `RingSizing.FrameSize` | lib/format_linux_ring.c:108-118 | the smallest doubling of the page that holds the frame wanted, within the buffer size |
| `RingSizing.BlockSize` | lib/format_linux_ring.c:127-130 | the block stays, or is halved while half of it holds all frames |
| `RingSizing.CalculateBuffers` | lib/format_linux_ring.c:93-158 | frames divide blocks if and only if a block of the order used has room for one; then frames cover the blocks exactly and number at least 256, with no block to spare; frames are whole pages |
| `RingSizing.JumboFrames` | lib/format_linux_ring.c:93-158 | with pages of 4096, frames of 9018 bytes and order 1 the frame size does not divide the block size |
| `RingSizing.SlotsAreSeparate` | lib/format_linux_ring.c:72-76 | every slot is page-aligned, inside the mapping and apart from the others |
| `MmapRing.TailTaken` | lib/format_linux_ring.c:476-480 | the kernel finds its next slot taken exactly if the ring is full, a held slot counting |
| `MmapRing.Ring.Arrive` | lib/format_linux_ring.c:476-480 | a frame is appended to those waiting, or lost if the ring is full; no slot in use is overwritten |
| `MmapRing.Ring.Release` | lib/format_linux_ring.c:223-250 | gives back the slot of the packet object, and no other |
| `MmapRing.Ring.Take` | lib/format_linux_ring.c:526-540 | the packet object gets the first waiting frame |
| `MmapRing.Ring.Read` | lib/format_linux_ring.c:457-550 | releases, waits and takes, whatever arrives meanwhile; or gives up with nothing |
| `MmapRing.RunsAreSound` | lib/format_linux_ring.c:457-550 | in every reachable state the frames put into the ring are arrived frames, once each and in order, and the packet object shows the last one handed out |
| `MmapRing.Run` | lib/format_linux_ring.c:457-550 | for every sequence of arrivals and reads the ring behaves as the bounded queue, and the frames seen are those put into it, in order |
| `PcapFields.FieldReads` | lib/format_pcapfile.c:174-187 | a field written in either order is read as the number written |
| `PcapFields.SwapTwice` | lib/byteswap.c:43-49 | swapping twice gives the number back |
| `LinkTypes.LinkRoundTrip` | lib/linktypes.c:53-163 | representable link types survive the mapping to a pcap header and an RT type and back |
| `LinkTypes.LinkNumbers` | lib/linktypes.c:53-135 | the pcap numbers of all link types that have one |
| `PcapFile.StartReads` | lib/format_pcapfile.c:190-243 | both byte orders and resolutions are recognised; a version is refused exactly if both numbers are wrong |
| `PcapFile.NextReads` | lib/format_pcapfile.c:346-424 | a written record is read back, fields, body and size, in either byte order, if and only if it fits the packet buffer with its header |
| `PcapFile.JustTooLong` | lib/format_pcapfile.c:380-404 | a body of 65521 bytes passes the length test and does not fit |
| `PcapFile.CutRecord` | lib/format_pcapfile.c:346-424 | a file that ends within a record is corrupt there, unless it ends at once or behind the header, which passes for the end of the file |
| `PcapFile.OversizedRecord` | lib/format_pcapfile.c:380-392 | a captured length of 65536 or more is corrupt |
| `PcapFile.FileReads` | lib/format_pcapfile.c:190-424 | a whole file of either order and resolution reads back as its records, up to the first that does not fit the buffer |
| `PcapFile.NanosecondsRoundDown` | lib/format_pcapfile.c:619-635 | times of nanosecond files are rounded down to microseconds, others kept |
| `PcapFile.UnchangedExactly` | lib/format_pcapfile.c:426-541 | a packet comes back unchanged if and only if its capture fits its wire length (less 4 for Ethernet) and its time fits 32 bits |
| `PcapFile.ClippedKeeps` | lib/format_pcapfile.c:426-541 | what is kept of a packet is its link type, its time in 32 bits each, its wire length, and its payload from the start as far as the wire length (less 4 for Ethernet) goes |
| `PcapFile.WrittenAgain` | lib/format_pcapfile.c:426-541 | writing what was read gives the same record |
| `PcapFile.Output.WritePacket` | lib/format_pcapfile.c:426-541 | the file grows by the record of the packet, behind a header for the first one; data without link type is discarded |
| `PcapFile.Input.StartInput` | lib/format_pcapfile.c:190-243 | the field by field tests on what was read give the outcome that `StartReads` relates to written headers |
| `PcapFile.Input.ReadPacket` | lib/format_pcapfile.c:346-424 | reads one record into the packet buffer and never beyond it, with end of file, truncation, oversized captures and a body past the buffer told apart |
| `PcapFile.ReadFile` | lib/format_pcapfile.c:346-424 | reading to the end gives all packets up to the end of the file or a corrupt record |
| `PcapFile.RoundTrip` | lib/format_pcapfile.c:346-541 | writing packets of one link type and reading the file gives them back with the same link type, time, wire length and the start of the payload, all of them if and only if every record fits the packet buffer |
| `PcapFile.SwappedReadsAlike` | lib/format_pcapfile.c:159-243 | the same file with all header fields byte-swapped reads back identically, to the same end |

## Left out

- Live capture back ends, sockets and file I/O: `recv`, `poll` and the kernel appear as arbitrary choices or parameters, files as byte sequences.
- RT connection setup, acknowledgements and the dispatch of data packets to other formats.
- RtFraming.Client.GetNextPacket: does not model the contents of control packets, only their framing and which types are known.
- Metadata and non-Ethernet link layers in decoding (radiotap, Linux SLL, 802.11, PFLOG, loopback); the caches are modelled for Ethernet only.
- trace_set_capture_length called directly: it would leave caches stale by design.
- CombinerOrdered.ReadFinal: without the ordering contract, says when the flush terminates and what it conserves, but not which passes fail or what order comes out.
- PcapFile.RoundTrip: says nothing about what happens after a read past the packet buffer. It does not cover Linux SLL and radiotap, whose wire length depends on what is in the packet, nor the demotion of link types that pcap does not have.
- PcapFile.ReadFile: for Linux SLL and radiotap records the wire length is the one in the file.
- ICMPv6 checksums, fragment offsets and tunnel decapsulation other than IPv6 in IPv4: easy members beside the walks.
- Control words in front of Ethernet inside of MPLS, and PPP protocols other than IPv4, IPv6 and MPLS.
- RingSizing.CalculateBuffers: takes bits shifted beyond 32 to be lost, which C leaves undefined for shifts by 32 or more.
- BitReader.Decode: does not model the byte order conversion and display of values, nor the bit state that a truncated packet leaves behind for the next call.
- The formats that keep time in floating-point seconds.
- MmapRing.Ring.Read: does not model the truncation of a frame to the configured snap length.
- BPF filters, ERF extension headers and seeking, protocol printers, wireless fields, OSPF iteration, URI parsing and error strings.
- Thread start-up, message queues and packet distribution other than by hash.
