# SnowTG: a verified model of the protocol core

SnowTG is a userspace TCP/IP stack in C with one owner core per connection. This project
models the parts of `pro-stack/` that carry its protocol, scheduling and concurrency
promises, and proves what they promise for every input, every run and every reachable
state. Everything is Dafny 4.11; `dafny verify dfyconfig.toml` checks the whole project.

## How it is built

Code that works by changing things is a class or a method with a loop, proved against a
specification; the specifications are values (sets of octets, byte strings, finite maps,
sets of deadlines, trees), and the main theorems are about those.

- **Numbers.** The C code compares 32-bit sequence numbers with `(int32_t)(a - b) < 0`. The
  code-level functions keep that arithmetic. Specifications use unbounded positions; one
  lemma (`Serial.SerialOrder`) connects the two for positions less than 2^31 apart.
- **Receiving.** `RbShape`, `RbTree` are the intrusive red-black tree with parent links and
  NULL leaves. `OfoIndex`, `OfoStore` put it next to a doubly linked list. `Reassembly` says
  what a set of held pieces is, `TcpOfo` inserts and trims, `TcpReceive` clips, delivers,
  drains and reads, `OwnerBudget` shares one byte budget between streams.
- **Loss recovery.** `Octets` counts octets of interval lists, `SackRanges` merges and trims
  them, `SackLoss` has IsLost and SetPipe of section 4 of RFC 6675 octet by octet, `Sack` is
  the scoreboard with NextSeg over a recovery episode, `SackReport` is the receiver's side
  (RFC 2018 blocks and the D-SACK of RFC 2883).
- **Sending.** `SendBuffer` is the chunk list, `TcpSend` the sender's numbers, windows and FIN.
- **Two endpoints.** `StreamSafety` joins a sender and a receiver by a network that may drop,
  duplicate and reorder, and proves stream safety in every run.
- **Timers.** `WheelMath`, `TimerWheel` are the 8 x 256 hierarchical timing wheel. Arming,
  cancelling and a whole poll, with callbacks that cancel, arm and wait, do what the same
  operations do on a plain map from timers to deadlines.
- **Owner.** `OwnerCommands` is the life of reference-counted commands under every order of
  steps, with records of holders and results that outlive the commands; `OwnerSlots` has
  generation-checked slots and coalesced readiness.
- **Intrusive lists.** `Lists` has lists of distinct items as sequences, `Links` spells several
  of them through one pair of link fields per item, as the timers and the transmit schedule do:
  a link field can be reused because an item is on at most one list.
- **Tables and codecs.** `Probing`, `Dispatch` are the open-addressed dispatch tables with
  tombstones; `OptionWire`, `TcpOptions` encode and parse TCP options; `TxSchedule` has the
  transmit FIFO and the address-wait buckets; the drain over shared links does what the same
  drain does on plain sequences.

Allocation, the network, clocks, pool levels and callbacks are arbitrary: they are
parameters, or values chosen freely at the point where the C code asks. Every refusal by a
limit or an allocator is counted by a ghost counter, so "nothing was refused" is a condition
a contract can name. What callbacks, flushes, callers and the network do is a script that may
be any sequence of their steps. Receive windows and flights may be as large as 2^28 octets; the code
configures 256 KiB and 64 KiB. Methods of `OwnerCommands` are steps that the
submission lock or the owner core makes indivisible; callers' and owner's steps may follow
each other in any order.

## What turned out not to hold

- A SACK block whose edges lie about half the sequence space apart, with neither edge
  clipped, passes the comparison that drops empty blocks. `Sack.StrayBlock` is a run in which
  such a block, behind a D-SACK, ends up on the SACKED list although it lies outside the
  flight. `Sack.ClipDecides` gives the exact condition: the comparison decides what it is meant
  to decide if and only if the block is `Sane`. Blocks cut from the stream near the flight are
  (`Sack.HonestBlock`), and so is a first block that is not a D-SACK (`Sack.FirstSane`). A block
  that is not costs the scoreboard its exactness: the exact results are stated while the ghost
  field `sane` holds. After an ACK it holds if and only if it held before and every block was
  sane, or nothing is left of any report: both lists empty, no recovery, nothing pending
  (`TcpSend.Sender.ProcessAck`). An ACK of everything empties both lists. What the sender does
  with bytes, numbers and segment sizes is proved for arbitrary blocks; Pipe is then a number
  without a meaning.
- A bare FIN whose number lies strictly inside a buffered piece is linked in front of that piece
  in the list and behind it in the tree. `TcpOfo.OfoQueue.QueueInsert` takes every segment and
  states that list and tree agree afterwards if and only if the segment is not such a FIN, or is
  refused; `TcpOfo.OfoQueue.StrandFin` shows it for a lone piece and every place inside. What
  follows is proved for a list in any order (`Ready`): whatever arrives, every byte delivered
  comes from a segment that carried it at its position, nothing received is given up, and all
  counters agree. What is lost is the order, and with it that old bytes win. No segment of one
  stream is stray (`StreamSafety.Connection.NotStranded`).
- A readiness burst at least as large as the slot table clears every mask, but not always the
  overflow flag. `OwnerSlots.SlotTable.Burst` states exactly when the flag survives: it was
  set, the burst is exactly as large as the table, every slot had events, and the slot the
  scan would visit last was queued (`OwnerSlots.FlagCanStay` is a run that ends this way). A
  burst larger than the table always clears it.
- New data does not always stay inside the peer's window. In SACK recovery and under Limited
  Transmit the code counts Pipe instead of everything in flight, so what is SACKED or lost
  makes room past the window. `TcpSend.Sender.FlushNew` states the size of every new segment,
  and that the segment stays inside the window if and only if the wanted segment fits there or
  what Pipe leaves out of the flight is at most what the peer's window exceeds cwnd by.
  `TcpSend.Overrun` is a run beyond the window. It needs a peer that shrinks its window: what
  `TcpSend.Sender.Send` admits ends inside the window it was admitted under.

## Model

| member | source | states |
|---|---|---|
| `Serial.SerialOrder` | pro-stack/tcp.c:185-203 | the three wrapped comparisons decide the order of unbounded positions less than 2^31 apart, or exactly 2^31 below |
| `RbTree.RbRoot.RotateLeft` | pro-stack/rbtree.c:33-50 | a rotation anywhere in the tree keeps links, nodes and in-order sequence and turns exactly that subtree |
| `RbTree.RbRoot.RotateRight` | pro-stack/rbtree.c:53-70 | the mirror image |
| `RbTree.RbRoot.LinkNode` | pro-stack/rbtree.c:72-79 | the new red leaf hangs at the chosen empty position with consistent links |
| `RbTree.RbRoot.InsertColor` | pro-stack/rbtree.c:81-132 | restores black root, no red-red edge and equal black heights without changing the in-order sequence |
| `RbTree.RbRoot.Insert` | pro-stack/rbtree.c:72-132 | link and rebalance: a red-black tree again, the in-order sequence gains exactly the new node at its place |
| `RbTree.RbRoot.Transplant` | pro-stack/rbtree.c:140-151 | which links change when one subtree replaces another, node by node |
| `RbTree.RbRoot.EraseFixup` | pro-stack/rbtree.c:159-238 | from one missing black below a NULL or real node, a red-black tree again with the same in-order sequence |
| `RbTree.RbRoot.Erase` | pro-stack/rbtree.c:240-280 | a red-black tree again, the in-order sequence loses exactly the erased node |
| `RbTree.RbRoot.First` | pro-stack/rbtree.c:282-284 | the first node of the in-order sequence, or null |
| `RbTree.RbRoot.Last` | pro-stack/rbtree.c:286-288 | the last node of the in-order sequence, or null |
| `RbTree.RbRoot.Next` | pro-stack/rbtree.c:290-304 | the in-order successor, found through parent links |
| `RbTree.RbRoot.Prev` | pro-stack/rbtree.c:306-320 | the in-order predecessor |
| `OfoIndex.LowerBound` | pro-stack/tcp_ofo.c:268-285 | the descent by wrapped keys finds the first node at or after a position; in a tree that is not sorted it finds some node or none |
| `OfoIndex.TreeInsert` | pro-stack/tcp_ofo.c:333-349 | the node enters the tree at its place in stream order |
| `OfoStore.Chain.InsertBefore` | pro-stack/tcp_ofo.c:351-371 | the doubly linked list gains the node in front of the given one |
| `OfoStore.Chain.Remove` | pro-stack/tcp_ofo.c:373-390 | the list loses exactly that node |
| `OfoStore.Store.Put` | pro-stack/tcp_ofo.c:333-371 | list and tree gain one piece and hold the same nodes; from good order they agree afterwards exactly when the two places are the same |
| `OfoStore.Store.DropHead` | pro-stack/tcp_ofo.c:373-390 | tree and list lose the first piece together, in any order; from good order they agree again |
| `OfoStore.Store.TrimHead` | pro-stack/tcp_ofo.c:392-402 | the first piece shrinks and is rekeyed, in any order; from good order tree walk and list stay equal unless a bare FIN ties with what follows |
| `OfoStore.Store.Find` | pro-stack/tcp_ofo.c:590-596 | the node at or after a position and the node in front of it; without order, two nodes of the list or none |
| `TcpOfo.OfoQueue.Admit` | pro-stack/tcp_ofo.c:442-510 | admission exactly when the window, the limits per stream, which under pressure depend on how far ahead the segment or an earlier one lies, the owner's limit and the pools allow; a refusal is counted |
| `TcpOfo.Owner.UpdatePressure` | pro-stack/tcp_ofo.c:93-134 | pressure begins exactly when a pool is scarce or three quarters of the memory is used, and ends exactly when both pools are ample and at most half is |
| `TcpOfo.OfoQueue.Link` | pro-stack/tcp_ofo.c:442-558 | one piece is placed and counted, or nothing changes and one refusal is counted; a stray FIN sets list and tree apart |
| `TcpOfo.OfoQueue.QueueInsert` | pro-stack/tcp_ofo.c:560-642 | every segment into a list in any order: what was held stays, nothing else but the segment clipped to the window joins it, and all of that unless refused; from good order and unless it is a stray FIN old bytes win, its FIN is noted exactly when no held octet follows it or its last octet is new, and pieces stay sorted, disjoint and within caps; list and tree agree if and only if it is not a stray FIN that was linked |
| `TcpOfo.OfoQueue.StrandFin` | pro-stack/tcp_ofo.c:590-641 | every bare FIN inside a lone piece, unless refused, stands in front of it in the list and behind it in the tree |
| `TcpOfo.OfoQueue.Unlink` | pro-stack/tcp_ofo.c:373-390 | the first piece leaves the list, the tree and every counter |
| `TcpOfo.OfoQueue.TrimHead` | pro-stack/tcp_ofo.c:392-402 | trimming the first piece keeps all counters equal to the list's sums |
| `TcpOfo.OfoQueue.Purge` | pro-stack/tcp_ofo.c:420-440 | everything held is released and uncharged; delivered bytes stay charged |
| `OwnerBudget.Streams.Receive` | pro-stack/tcp_ofo.c:181-211 | any segment for any stream, in good order or not, is taken in as the stream does alone, and keeps the owner's gauges equal to the sums over all streams and within the budget |
| `OwnerBudget.Streams.Recv` | pro-stack/tcp_ofo.c:196-266 | so does a read |
| `OwnerBudget.Streams.Open` | pro-stack/tcp_ofo.c:242-259 | so does a new stream, which starts at zero, with or without SACK |
| `OwnerBudget.Streams.Close` | pro-stack/tcp.c:3525-3545 | so does a stream that goes away: exactly what it held leaves the owner's gauges, the other streams stay |
| `TcpReceive.AcceptableIff` | pro-stack/tcp.c:213-229 | the four-case test of section 3.3 of RFC 793 holds if and only if segment and window intersect |
| `TcpReceive.ClipRight` | pro-stack/tcp.c:433-440 | an acceptable segment is cut at the right edge; the FIN survives only strictly inside |
| `TcpReceive.Receiver.Deliver` | pro-stack/tcp.c:318-363 | all of a payload is queued for the application, or nothing and the failure is counted; it fails exactly for more than 2048 octets or without storage |
| `TcpReceive.Receiver.Drain` | pro-stack/tcp_ofo.c:644-686 | from a list in any order, delivers held bytes at their positions as long as the head is contiguous; in good order exactly those that became contiguous; ends at a gap, the FIN, or a failed delivery that changes nothing |
| `TcpReceive.Receiver.EndStream` | pro-stack/tcp_ofo.c:420-440 | at the FIN everything held is purged, and the notes for the next report with it |
| `TcpReceive.Receiver.Discard` | pro-stack/tcp.c:3525-3545 | a stream that goes away gives back every byte and segment it was charged for, and no other |
| `TcpReceive.Receiver.NoteDup` | pro-stack/tcp.c:241-278 | in good order a D-SACK is noted if and only if SACK is permitted and part of the segment was received before: the first such part |
| `TcpReceive.Receiver.NoteNew` | pro-stack/tcp.c:289-310 | the recent block is what the segment shares with the last held piece it overlaps, and there is one exactly if it overlaps any |
| `TcpReceive.Receiver.Insert` | pro-stack/tcp.c:370-379 | buffering any segment; the duplicate noted is what was received before it, the recent block what it brought |
| `TcpReceive.Receiver.Receive` | pro-stack/tcp.c:412-470 | what any segment may change, with any bytes and FINs and a list in any order: new bytes come from it or from what was held, at their positions, once; the end comes exactly at a FIN; an unacceptable segment changes nothing; all of it is kept exactly when nothing was refused; nothing received in front of the end is given up; good order stays unless it is a stray FIN; what is in line is delivered unless delivery fails, and data that is next in line is not subject to the out-of-order limits |
| `TcpReceive.KeepsReceived` | pro-stack/tcp.c:412-470 | no reneging: octets once held stay held until they are below RCV.NXT |
| `TcpReceive.Receiver.Recv` | pro-stack/tcp.c:3441-3501 | reads return the stream in order, whatever the order of the list, as much of the first blob as asked for, and drain what became contiguous; EOF only after every byte before the FIN was read; EAGAIN exactly when all delivered bytes were read and the stream goes on |
| `TcpReceive.Receiver.MakeReport` | pro-stack/tcp_options.c:290-311 | the next SACK report is honest, most urgent first, and complete if it did not fill up and carries no D-SACK |
| `SackRanges.MergeIn` | pro-stack/tcp_sack.c:121-172 | the merged interval list is, octet by octet, the union with the new range |
| `SackRanges.TrimIn` | pro-stack/tcp_sack.c:175-199 | the trimmed list is, octet by octet, the intersection with the flight |
| `SackRanges.RangeIntersects` | pro-stack/tcp_sack.c:202-211 | true exactly when some octet is in both |
| `SackLoss.LostAntitone` | pro-stack/tcp_sack.c:384-406 | if an octet is lost so is every lower one: what justifies the binary search |
| `SackLoss.IsLost` | pro-stack/tcp_sack.c:330-351 | the early-exit pass decides IsLost of RFC 6675 for every octet that is not SACKed; for one that is, it counts that octet, too |
| `SackLoss.JudgedLost` | pro-stack/tcp_sack.c:330-351 | for an octet that is not SACKed the two readings are the same |
| `SackLoss.RetransmittedOverlap` | pro-stack/tcp_sack.c:354-376 | the number of octets of a range that were retransmitted below HighRxt |
| `SackLoss.PipeForUnsacked` | pro-stack/tcp_sack.c:384-406 | binary search gives the octet-by-octet Pipe of one hole |
| `SackLoss.SetPipe` | pro-stack/tcp_sack.c:409-425 | the interval pass equals the per-octet sum of section 4 of RFC 6675 over the whole flight |
| `SackLoss.FindUnsacked` | pro-stack/tcp_sack.c:446-467 | the first maximal hole of a range, or none |
| `SackLoss.HighestSacked` | pro-stack/tcp_sack.c:470-478 | the end of everything SACKed |
| `SackLoss.FindHighestUnsacked` | pro-stack/tcp_sack.c:481-503 | the last maximal hole of a range, or none |
| `Sack.ClipDecides` | pro-stack/tcp_sack.c:295-300 | clipping a block to the flight and testing it for emptiness is right if and only if the block is sane |
| `Sack.StrayBlock` | pro-stack/tcp_sack.c:257-310 | a run of Update in which a block that is not sane lands on the SACKED list outside the flight |
| `Sack.HonestBlock` | pro-stack/tcp_sack.c:295-300 | a block cut from the stream near the flight is clipped to its intersection with the flight |
| `Sack.FirstSane` | pro-stack/tcp_sack.c:257-310 | the first block of an ACK is a D-SACK or sane, so one block alone is always merged correctly |
| `Sack.DsackMeans` | pro-stack/tcp_sack.c:268-283 | in terms of octets the first block is a D-SACK if and only if the ACK covers it or the second block does |
| `Sack.DsackAside` | pro-stack/tcp_sack.c:257-310 | leaving a D-SACK out of the merge loses nothing the other blocks do not report |
| `Sack.CandidateSet` | pro-stack/tcp_sack.c:428-443 | a nonempty candidate of at most one SMSS, or none |
| `Sack.Scoreboard.RangeInsert` | pro-stack/tcp_sack.c:121-172 | the union, the exact number of new octets, sorted and disjoint; only a refused node fails, and leaves the list as it was |
| `Sack.Scoreboard.RangeTrim` | pro-stack/tcp_sack.c:175-199 | the intersection, with freed nodes counted |
| `Sack.Scoreboard.TrimTo` | pro-stack/tcp_sack.c:237-254 | after a cumulative ACK exactly the octets at or above it stay; a pending choice goes exactly if it starts beyond the flight or is acknowledged, and degradation ends exactly at its number |
| `Sack.Scoreboard.Degrade` | pro-stack/tcp_sack.c:102-112 | both lists empty, no nodes, recovery left, duplicate ACKs forgotten |
| `Sack.Scoreboard.Restore` | pro-stack/tcp_sack.c:237-254 | with both lists empty, no recovery and nothing pending the scoreboard is exact whatever was merged before |
| `Sack.Scoreboard.Reset` | pro-stack/tcp_sack.c:230-234 | everything is forgotten, and the scoreboard is exact and empty at the new number |
| `Sack.Scoreboard.Apply` | pro-stack/tcp_sack.c:288-310 | all blocks of one ACK merged: the SACKED set and its exact growth |
| `Sack.Scoreboard.Update` | pro-stack/tcp_sack.c:257-327 | for every list of blocks the nodes are counted, at most 128, and the candidate stays below one segment; as long as the blocks are sane SACKED becomes the old set clipped to the flight united with the clipped blocks that are not a D-SACK, growth is exact, the D-SACK is matched against the retransmitted octets, recovery ends exactly at RecoveryPoint or after a refused node and is otherwise as it was, and the lists are given up only after a refused node |
| `Sack.Scoreboard.EnterRecovery` | pro-stack/tcp_sack.c:506-521 | a new episode with RecoveryPoint at the end of the flight, HighRxt and the rescue guard at SND.UNA, and the first segment, cut at one SMSS, as candidate |
| `Sack.Scoreboard.SchedulePartial` | pro-stack/tcp_sack.c:524-536 | NewReno partial ACK: the lowest unacknowledged segment again |
| `Sack.Scoreboard.SettleNewReno` | pro-stack/tcp.c:1548-1562 | a cumulative ACK ends NewReno recovery exactly at RecoveryPoint; before it the first unacknowledged segment is next |
| `Sack.Scoreboard.OnRto` | pro-stack/tcp_sack.c:539-544 | SACK information and duplicate ACKs are forgotten, and a new episode starts with the first segment |
| `Sack.Scoreboard.FirstLost` | pro-stack/tcp_sack.c:570-579 | NextSeg rule 1: the least lost octet that is not SACKed at or above HighRxt, or none exists |
| `Sack.Scoreboard.Rescue` | pro-stack/tcp_sack.c:593-604 | NextSeg rule 4: the last SMSS of the highest hole, or all of a shorter one |
| `Sack.Scoreboard.NextSeg` | pro-stack/tcp_sack.c:547-606 | the rules of NextSeg in their order, as a relation on octets: where the choice starts and where it ends; it is a whole SMSS unless a SACKed octet, the end of the data or the beginning of the hole cuts it |
| `Sack.Scoreboard.ScheduleNext` | pro-stack/tcp_sack.c:547-606 | a chosen retransmission never overlaps SACKed data and spans at most one SMSS; in SACK recovery it is what NextSeg says, in RTO recovery as much of the lowest hole as one SMSS allows; a pending choice is kept |
| `Sack.Scoreboard.CommitRetransmit` | pro-stack/tcp_sack.c:614-638 | the retransmitted set gains exactly the sent octets; HighRxt or the rescue guard, and Pipe in SACK recovery, move with them; retransmissions of an episode stay increasing and disjoint, with at most one rescue |
| `Sack.Scoreboard.CommitNew` | pro-stack/tcp_sack.c:614-638 | HighData moves, and Pipe in SACK recovery; nothing else |
| `Sack.Scoreboard.UpdatePipe` | pro-stack/tcp_sack.c:409-425 | the stored Pipe is the per-octet sum |
| `SackReport.NoteDuplicate` | pro-stack/tcp.c:241-278 | the first part of the segment that was already received: below RCV.NXT, or in the first held piece it overlaps; in good order nothing is noted exactly if nothing of it was received |
| `SackReport.NoteRecent` | pro-stack/tcp.c:289-310 | what the segment shares with the last held piece it overlaps |
| `SackReport.Normalize` | pro-stack/tcp_options.c:198-220 | adjacent pieces merge; the intervals cover exactly the held octets |
| `SackReport.AddDistinct` | pro-stack/tcp_options.c:141-151 | a block is added unless one already contains it or there is no room |
| `SackReport.EnclosesMeans` | pro-stack/tcp_options.c:130-135 | in terms of octets: the outer block begins no later and ends no earlier |
| `SackReport.HistoryPush` | pro-stack/tcp_options.c:154-181 | the new block comes first in place of the first one related to it, the others keep their order, a full history loses its oldest |
| `SackReport.Collect` | pro-stack/tcp_options.c:222-284 | D-SACK first, else the recent interval first; with room left every interval is reported; the blocks are exactly the D-SACK, the interval around it, the recent interval, those around recently reported blocks and the rest, in this order, without those inside an earlier one; the history gains the recent interval |
| `SackReport.KnownFirst` | pro-stack/tcp_options.c:222-284 | an interval around a recently reported block is left out only if everything reported is at least as urgent |
| `SackReport.Report` | pro-stack/tcp_options.c:191-284 | every block but a D-SACK lies inside held data, a D-SACK inside received data; complete when there is room; most urgent first, and the notes are used up |
| `SendBuffer.Buffer.Append` | pro-stack/tcp.c:555-611 | the chunk list is a byte queue: a prefix joins its end, all of it unless the allocator refused a chunk; no chunk is started while the last one has room (`Packed`, in `Valid()`) |
| `SendBuffer.Buffer.Remove` | pro-stack/tcp.c:653-689 | acknowledged bytes leave at the front, across chunks |
| `SendBuffer.Buffer.Peek` | pro-stack/tcp.c:692-711 | the queued bytes at a sequence number up to the end of their chunk, exactly when it lies in the buffer |
| `SendBuffer.Buffer.Reset` | pro-stack/tcp.c:510-543 | every chunk is released, and the next byte gets the given number |
| `TcpSend.Sender.Send` | pro-stack/tcp.c:3394-3426 | exactly what the application limit and the peer's window allow is accepted at the end of the stream, unless a chunk was refused; nothing once the send side is closed; what is accepted ends inside that window |
| `TcpSend.Sender.Credit` | pro-stack/tcp.c:3055-3073 | room is the smaller window less the load: the flight, or Pipe in SACK recovery and under Limited Transmit, which is the per-octet sum while the scoreboard is exact |
| `TcpSend.Sender.Cut` | pro-stack/tcp.c:3042-3123 | which bytes go out next and exactly how many: the least of unsent data, chunk, candidate, segment size and room, or none under Nagle's rule |
| `TcpSend.Sender.FlushNew` | pro-stack/tcp.c:3025-3193 | for every scoreboard a new segment carries exactly the application's bytes at SND.NXT, its size is the least of all limits under that load, load plus size stays inside both windows, and it stays inside the peer's window if and only if it fits; nothing is held back but by Nagle's rule, and no segment could be longer |
| `TcpSend.Overrun` | pro-stack/tcp.c:3055-3073 | a run in which Limited Transmit sends past the peer's window |
| `TcpSend.Sender.FlushRecovery` | pro-stack/tcp.c:2913-3023 | for every scoreboard a retransmission carries exactly the application's bytes at its number, from SND.UNA up to SND.NXT, which stays; what is asked for is the pending choice, else what NextSeg says when Pipe leaves room for a segment; it is sent if and only if it names buffered bytes that were sent, as far as segment size and chunk allow; it stays pending exactly if it may be tried again, and what was sent is on the books |
| `TcpSend.Sender.Nominate` | pro-stack/tcp.c:2917-2934 | with nothing pending in SACK recovery NextSeg chooses if and only if the congestion window exceeds Pipe by a segment |
| `TcpSend.Sender.Candidacy` | pro-stack/tcp.c:2936-2946 | the candidate of an exact scoreboard passes those guards if and only if it is not acknowledged |
| `TcpSend.Sender.FlushFin` | pro-stack/tcp.c:3345-3375 | the deferred FIN goes out exactly when every accepted byte has a number, and takes the next one; if it cannot be queued the stream is aborted, and nothing else changes |
| `TcpSend.Sender.Close` | pro-stack/tcp.c:3634-3728 | the FIN goes out at once exactly when nothing is unsent; otherwise it is deferred and no more data is accepted; if it cannot be queued the stream is aborted |
| `TcpSend.Sender.Abort` | pro-stack/tcp.c:2798-2833 | the stream is closed, its buffer released, its scoreboard forgotten, and SND.UNA meets SND.NXT |
| `TcpSend.Sender.Rto` | pro-stack/tcp.c:1277-1445 | a timeout with payload in flight starts an RTO episode with the first segment, or repeats a lone FIN at its own number |
| `TcpSend.Sender.ProcessAck` | pro-stack/tcp.c:1491-1710 | whatever the blocks, an ACK outside [SND.UNA, SND.NXT] changes nothing and one inside removes exactly the acknowledged bytes; sane blocks keep the scoreboard exact: SACKED is then the old set above the ACK and what the blocks report, and recovery reacts exactly as described: an episode ends at RecoveryPoint, SACK recovery starts at the third ACK with new SACK information or once the first octet is lost, NewReno recovery at the third duplicate, each with the first segment as candidate, and Limited Transmit is allowed before that; afterwards it is exact if and only if that is so or nothing is left of any report |
| `StreamSafety.Connection.Safe` | pro-stack/tcp.c:412-470 | in every valid state bytes read and delivered are a prefix of bytes accepted, EOF means all of them and a FIN, and with honest reports every octet the sender holds SACKED was received |
| `StreamSafety.Connection.AppSend` | pro-stack/tcp.c:3394-3426 | a write preserves the two-endpoint invariant and extends the accepted stream by what the window and the buffer have room for, unless the allocator refuses |
| `StreamSafety.Connection.TxNew` | pro-stack/tcp.c:3025-3193 | so does sending new data; a segment goes out whenever there is data and room and nothing holds it back |
| `StreamSafety.Connection.TxRecovery` | pro-stack/tcp.c:2913-3023 | so does a retransmission; a pending one that can be repeated goes out |
| `StreamSafety.Connection.TxFin` | pro-stack/tcp.c:3634-3704 | so does a FIN, immediate, deferred or repeated, which goes out when it is due, and an abort because it could not be queued |
| `StreamSafety.Connection.Deliver` | pro-stack/tcp.c:412-470 | so does the arrival of any segment ever sent, any number of times, in any order; unless something is refused its octets inside the window are held or delivered afterwards, and nothing in line is left |
| `StreamSafety.Connection.AppRecv` | pro-stack/tcp.c:3441-3501 | so does a read; EOF only after all accepted bytes were read, and some bytes whenever some are delivered and unread |
| `StreamSafety.Connection.TxAck` | pro-stack/tcp_options.c:290-326 | so does an acknowledgement of everything received in order, with its report |
| `StreamSafety.Connection.RxAck` | pro-stack/tcp.c:1491-1710 | so does the arrival of any acknowledgement ever sent, with any blocks in place of its own; its own recent blocks keep the scoreboard true, and a blank scoreboard is true again; SND.UNA moves exactly to an acceptable ACK |
| `StreamSafety.Connection.PeerMoves` | pro-stack/tcp.c:385-402 | so does a state change caused by the peer |
| `StreamSafety.Connection.Act` | pro-stack/tcp.c:412-470 | so does any step of either side or of the network, and it does what it is for when its time has come; nothing sent, accepted, delivered or read is taken back |
| `StreamSafety.Connection.Run` | pro-stack/tcp.c:412-470 | every sequence of steps: read bytes are a prefix of delivered ones and those of accepted ones, EOF means all of them, and every segment and reply ever sent may still arrive until 2^31 octets less a few buffers later |
| `WheelMath.LevelPlaces` | pro-stack/owner_timer.c:146-167 | the level chosen by the highest differing byte holds the tick ahead of the cursor |
| `WheelMath.PlacedStays` | pro-stack/owner_timer.c:192-220 | moving the cursor to a bucket's boundary leaves every other timer in its right bucket |
| `WheelMath.BoundariesDiffer` | pro-stack/owner_timer.c:133-139 | buckets of different levels never begin at the same tick, so the first one is unique |
| `WheelMath.NotDueYet` | pro-stack/owner_timer.c:86-97 | rounding up: a deadline in the future is on a later tick than now |
| `WheelMath.EarlyOut` | pro-stack/owner_timer.c:141-144 | before the cached cycle count the cached tick is not reached |
| `WheelMath.Punctual` | pro-stack/owner_timer.c:86-97 | a timer is due at the latest one rounded millisecond after its deadline |
| `WheelMath.MsToCyclesExact` | pro-stack/owner_timer.c:361-384 | the overflow-free steps give the exact quotient, saturated at 2^64 - 1 |
| `TimerWheel.Wheel.Unlink` | pro-stack/owner_timer.c:112-131 | off its list through its link fields, the occupancy bit cleared exactly when the bucket empties |
| `TimerWheel.Wheel.Link` | pro-stack/owner_timer.c:101-110 | at the head of the list through the link fields, bit set |
| `TimerWheel.Wheel.CutOut` | pro-stack/owner_timer.c:112-131 | the neighbours' link fields are joined, and head and fields spell every list as before without that timer |
| `TimerWheel.Wheel.PushOn` | pro-stack/owner_timer.c:101-110 | the fields of the timer and of the old head are set, and head and fields spell every list as before with that timer in front |
| `TimerWheel.Wheel.Schedule` | pro-stack/owner_timer.c:146-167 | the timer goes where its tick belongs, and the cached boundary never passes it |
| `TimerWheel.Wheel.FirstSlot` | pro-stack/owner_timer.c:169-190 | the bitmap scan finds the lowest used slot of a level |
| `TimerWheel.Wheel.Next` | pro-stack/owner_timer.c:169-190 | the used bucket that begins first over all eight levels |
| `TimerWheel.Wheel.Cascade` | pro-stack/owner_timer.c:210-225 | terminates because the cursor advances; afterwards nothing due is in a bucket and deadlines are unchanged |
| `TimerWheel.Wheel.NoneDue` | pro-stack/owner_timer.c:197-201 | the cached early-out never hides a due timer |
| `TimerWheel.Wheel.Arm` | pro-stack/owner_timer.c:398-451 | the set of deadlines gains or replaces exactly this one; refused exactly when full |
| `TimerWheel.Wheel.Cancel` | pro-stack/owner_timer.c:461-479 | the set loses exactly this one |
| `TimerWheel.Wheel.Poll` | pro-stack/owner_timer.c:192-235 | for every script of its callbacks a poll does to the deadlines what it does on a plain map: timers fire in some order, and each callback's requests take effect before the next one; exactly the timers due at entry fire, none before its deadline, except those an earlier callback cancelled or re-armed; every timer not mentioned keeps its deadline; a nested poll does nothing |
| `TimerWheel.FairPoll` | pro-stack/owner_timer.c:192-235 | over a poll a timer fires if and only if it was due and untouched before; once; and no due timer is passed over |
| `TimerWheel.Wheel.Act` | pro-stack/owner_timer.c:398-479 | a request to arm, cancel or wait does to the deadlines what it does on a plain map, the limit on armed timers included |
| `TimerWheel.Wheel.Callback` | pro-stack/owner_timer.c:227-233 | so does a whole callback, and nothing else happens |
| `TimerWheel.Wheel.FireAll` | pro-stack/owner_timer.c:227-233 | so does the firing of all ready timers, in the order they fire |
| `TimerWheel.Unmentioned` | pro-stack/owner_timer.c:192-235 | a timer that no note mentions keeps its deadline, or stays unarmed |
| `TimerWheel.Wheel.Run` | pro-stack/owner_timer.c:192-235 | over every sequence of requests and polls each step does what it does on the plain map, each poll gives every timer its turn whose tick is reached, the armed timers are exactly those the notes leave, and every timer that fired was armed and past its deadline |
| `OwnerCommands.Owner.Clone` | pro-stack/socket_owner.c:805-873 | a fresh command with one reference, the caller's |
| `OwnerCommands.Owner.TryEnqueue` | pro-stack/socket_owner.c:884-960 | into the ring with a second reference, or back to exactly one with the error; no other command changes |
| `OwnerCommands.Owner.Abandon` | pro-stack/socket_owner.c:884-960 | a caller that gives up before submission frees the command |
| `OwnerCommands.Owner.Start` | pro-stack/socket_owner.c:1442-1467 | the ring's reference becomes the active list's; a cancelled command ends at once with the reason given, an expired one with ETIMEDOUT, any other runs |
| `OwnerCommands.Owner.Finish` | pro-stack/socket_owner.c:668-685 | result and error are recorded once, as given, and never change; the state tells cancellation and timeout from completion; CREATE and ACCEPT open a socket |
| `OwnerCommands.Owner.CancelLocal` | pro-stack/socket_owner.c:716-727 | a parked command ends with -1 and the error, unless already done |
| `OwnerCommands.Owner.MarkCancel` | pro-stack/socket_owner.c:648-666 | only the first cancellation counts |
| `OwnerCommands.Owner.Notify` | pro-stack/socket_owner.c:648-666 | one notification and one reference, unless the owner stopped |
| `OwnerCommands.Owner.HandleNotice` | pro-stack/socket_owner.c:1472-1491 | a command still in a ring is left alone; otherwise it ends with the reason its caller gave, unless done; the notification's reference goes, which frees it only if nobody else holds it; no other command changes |
| `OwnerCommands.Owner.HandleControl` | pro-stack/socket_owner.c:1495-1534 | never reaped while in a ring, then it waits for a later batch; otherwise reaped, and an unclaimed socket is closed; no other command changes |
| `OwnerCommands.Owner.Reap` | pro-stack/socket_owner.c:786-801 | a command that had not ended ends with the reason given, else ECANCELED; an unclaimed CREATE or ACCEPT socket is closed; both references are dropped, which frees it unless a notification holds it; no other command changes |
| `OwnerCommands.Owner.Observe` | pro-stack/socket_owner.c:960-1012 | the caller keeps the command exactly while it carries a socket |
| `OwnerCommands.Owner.Release` | pro-stack/socket_owner.c:741-762 | the caller's reference goes to the control list, or is dropped when the owner stopped; a claimed socket is the caller's; no other command changes |
| `OwnerCommands.Owner.LetGo` | pro-stack/socket_owner.c:638-646 | the last holder frees, any other lowers the count to the number of holders |
| `OwnerCommands.Owner.ShutRing` | pro-stack/socket_owner.c:1566-1573 | a queued command is started and ends with the reason given, else ENETDOWN |
| `OwnerCommands.Owner.ShutDrop` | pro-stack/socket_owner.c:1574-1592 | one of the owner's references goes, an unfinished command ends with ENETDOWN; the last reference frees; no other command changes |
| `OwnerCommands.Owner.ShutBegin` | pro-stack/socket_owner.c:1558-1565 | no more submissions; commands only move to the lists shutdown took over |
| `OwnerCommands.Owner.Shutdown` | pro-stack/socket_owner.c:1554-1604 | whatever callers do before each of the owner's steps and after the last, every list and the socket table end up empty; the commands left are exactly those callers hold, with one reference each, and no caller loses one it did not give up; every other command ended or was given up before submission; no result changed |
| `OwnerCommands.Owner.AfterShutdown` | pro-stack/socket_owner.c:1554-1604 | with empty lists a live command has exactly its caller's reference |
| `OwnerCommands.Owner.Counted` | pro-stack/socket_owner.c:638-646 | in every valid state the reference count is the number of holders; a freed command is on no list, is held by nobody, and ended or was given up; one in a ring is not done |
| `OwnerCommands.Owner.CallerActs` | pro-stack/socket_owner.c:884-1012 | any caller step on any command does what it is for when its time has come, and keeps the invariant and every result; only its own step takes a command from its caller; once the owner stopped its lists stay |
| `OwnerCommands.Owner.OwnerActs` | pro-stack/socket_owner.c:1442-1534 | any owner step does what it is for when its time has come, and keeps the invariant, every result and everything callers hold, and closes no socket its caller took |
| `OwnerCommands.Owner.Serve` | pro-stack/socket_owner.c:1442-1534 | over every sequence of caller and owner steps no command is freed that its caller holds, none is lost before it ended or was given up, results stay, names are not used again, and sockets taken by callers stay open |
| `OwnerSlots.SlotTable.Adopt` | pro-stack/socket_owner.c:444-479 | succeeds exactly when a slot is vacant, and the handle carries the slot's current generation |
| `OwnerSlots.SlotTable.Retire` | pro-stack/socket_owner.c:481-512 | vacates exactly that socket's slot and starts the next generation, skipping zero |
| `OwnerSlots.SlotTable.Lookup` | pro-stack/socket_owner.c:184-199 | resolves a handle by slot, generation and protocol, to the socket it was given for or to nothing |
| `OwnerSlots.SlotTable.HandleLife` | pro-stack/socket_owner.c:184-199 | every handle ever given resolves to the socket it was given for if and only if that was not retired, and to nothing otherwise, for fewer than 2^32 - 1 retirements |
| `OwnerSlots.SlotTable.Post` | pro-stack/socket_owner.c:528-569 | events join the socket's mask, one event is queued exactly when none is and pool and ring grant it, otherwise the overflow is noted; no other socket changes |
| `OwnerSlots.SlotTable.NeverLost` | pro-stack/socket_owner.c:528-569 | a socket with events has exactly one queued event of its generation, or the overflow flag is set |
| `OwnerSlots.SlotTable.TakeEvents` | pro-stack/socket_owner.c:571-598 | stale events are dropped, and the others reported in the order of the ring with the whole mask |
| `OwnerSlots.SlotTable.ScanSlots` | pro-stack/socket_owner.c:600-617 | slots are visited in turn from where the last scan stopped, those whose events found no room are reported, and the flag is cleared exactly if all were visited |
| `OwnerSlots.SlotTable.Burst` | pro-stack/socket_owner.c:571-619 | reports are live and complete, as many as asked for unless nothing is left to report; a burst as large as the table clears every mask, and the flag except in one exact case; queued events come in their order, then slots in turn from where the last scan stopped, and the scan position moves by as many |
| `OwnerSlots.FlagCanStay` | pro-stack/socket_owner.c:600-617 | a run that ends with the flag set |
| `Probing.Absent` | pro-stack/rx_dispatch.c:155-175 | a probe that reaches an empty slot, or comes round, proves the key absent |
| `Probing.Placed` | pro-stack/rx_dispatch.c:90-133 | filling the first tombstone passed keeps every live key reachable and unique |
| `Probing.Buried` | pro-stack/rx_dispatch.c:135-153 | a tombstone strands no other key |
| `Probing.Capacity` | pro-stack/rx_dispatch.c:37-47 | a full table holds as many keys as slots |
| `Dispatch.WorkerIndex` | pro-stack/rx_dispatch.c:68-74 | the first worker with that lcore, or none |
| `Dispatch.EndpointWord` | pro-stack/rx_dispatch.c:76-88 | a lawful endpoint and owner are recovered from the word, which is never zero or the tombstone |
| `Dispatch.EndpointMatch` | pro-stack/rx_dispatch.c:76-81 | the masked comparison is equality of endpoints |
| `Dispatch.FlowWord` | pro-stack/rx_dispatch.c:177-194 | a flow and owner are recovered from the two words |
| `Dispatch.FlowMatch` | pro-stack/rx_dispatch.c:209-222 | the two comparisons are equality of four-tuples |
| `Dispatch.EndpointTable.Lookup` | pro-stack/rx_dispatch.c:155-175 | exactly the registered owner's worker, or nobody |
| `Dispatch.EndpointTable.Register` | pro-stack/rx_dispatch.c:338-365 | the finite map gains exactly this key; the same owner again is fine, another is refused, ENOSPC only with every slot full; a new key takes the first slot on its way that holds none, and no other slot changes |
| `Dispatch.EndpointTable.Insert` | pro-stack/rx_dispatch.c:90-133 | the probe loop behind it, with tombstone reuse |
| `Dispatch.EndpointTable.Unregister` | pro-stack/rx_dispatch.c:367-384 | the map loses the key exactly if this owner holds it, for arbitrary arguments |
| `Dispatch.EndpointTable.IsRegistered` | pro-stack/rx_dispatch.c:386-395 | registered under its own or the wildcard address |
| `Dispatch.FlowTable.Lookup` | pro-stack/rx_dispatch.c:196-228 | exactly the registered owner's worker, or nobody |
| `Dispatch.FlowTable.Register` | pro-stack/rx_dispatch.c:397-422 | the finite map gains exactly this four-tuple, or the exact refusal; it takes the first slot on its way that holds none, and no other slot changes |
| `Dispatch.FlowTable.Insert` | pro-stack/rx_dispatch.c:230-281 | the probe loop behind it, with tombstone reuse |
| `Dispatch.FlowTable.Unregister` | pro-stack/rx_dispatch.c:424-465 | the map loses the four-tuple exactly if this owner holds it |
| `Dispatch.FlowTable.Room` | pro-stack/rx_dispatch.c:37-47 | a connection budget below the table size never runs out of slots |
| `OptionWire.RoundTrip` | pro-stack/tcp_options.c:355-484 | parsing the bytes of any list of legal options, in any order and padding, returns what they mean |
| `OptionWire.Accepted` | pro-stack/tcp_options.c:355-484 | whatever parses is the wire form of such a list with that meaning |
| `OptionWire.Meant` | pro-stack/tcp_options.c:355-484 | a list of options is malformed if and only if MSS, scale, SACK-permitted, SACK or timestamps occur twice; otherwise the MSS is the one offered if it is at least 536, else 1460, scale and timestamps are those offered, SACK-permitted counts on a SYN and SACK blocks on an ACK that is none |
| `OptionWire.Decoded` | pro-stack/tcp_options.c:355-484 | the report of any area is right: good if and only if the area is the wire form of options that do not repeat, and then it tells exactly those |
| `OptionWire.Sample` | pro-stack/tcp_options.c:391-400 | the octets 2, 4, 5, 120 of a SYN report a segment size of 1400 |
| `TcpOptions.Parse` | pro-stack/tcp_options.c:355-484 | total on any option area, reads no octet outside it; good if and only if the area spells options that do not repeat, and the report tells exactly those |
| `TcpOptions.ParseSack` | pro-stack/tcp_options.c:418-460 | every block must run forward; blocks count in order, on a non-SYN ACK only |
| `TcpOptions.ChooseScale` | pro-stack/tcp.c:135-142 | the smallest scale that fits, at most 14 |
| `TcpOptions.Fragment.Append` | pro-stack/tcp_options.c:65-76 | octets placed at the next word, refused exactly when they exceed 40 |
| `TcpOptions.Fragment.EmitStamp` | pro-stack/tcp_options.c:103-118 | a padded timestamp joins the list |
| `TcpOptions.Fragment.EmitSack` | pro-stack/tcp_options.c:290-326 | on an ACK the honest blocks of the next report, up to four or as many as fit, join the list |
| `TcpOptions.Fragment.ApplySyn` | pro-stack/tcp_options.c:506-527 | never overflows, and the peer parses the same MSS, scale, timestamps and SACK-Permitted for every combination |
| `TcpOptions.Fragment.ApplyEstablished` | pro-stack/tcp_options.c:530-543 | never overflows, and the peer parses the same timestamps and the same blocks in order, each one honest: the report for four blocks, or three beside a timestamp |
| `TxSchedule.TxQueue.Append` | pro-stack/socket.c:440-460 | queued once, at the tail; links, depth and flag agree |
| `TxSchedule.TxQueue.FifoUnlink` | pro-stack/socket.c:462-479 | off the FIFO, order of the others unchanged, no link left behind |
| `TxSchedule.TxQueue.WaitLink` | pro-stack/socket.c:491-501 | at the head of the bucket of its address, through the same link fields |
| `TxSchedule.TxQueue.WaitUnlink` | pro-stack/socket.c:503-520 | out of that bucket, no link left behind |
| `TxSchedule.TxQueue.LinkTail` | pro-stack/socket.c:445-451 | head, tail and the one pair of fields per socket spell the longer FIFO and every bucket |
| `TxSchedule.TxQueue.CutFifo` | pro-stack/socket.c:466-475 | they spell the FIFO without that socket and every bucket |
| `TxSchedule.TxQueue.LinkBucket` | pro-stack/socket.c:494-498 | they spell the longer bucket, the other buckets and the FIFO |
| `TxSchedule.TxQueue.CutBucket` | pro-stack/socket.c:510-517 | they spell the bucket without that socket, the other buckets and the FIFO |
| `Links.Unlinked` | pro-stack/socket.c:466-475 | joining the neighbours of an item leaves links that spell the list without it, with head and tail moved when it was at an end |
| `TxSchedule.TxQueue.MarkDirty` | pro-stack/socket.c:522-532 | queued unless already queued or waiting |
| `TxSchedule.TxQueue.Unlink` | pro-stack/socket.c:534-546 | on no list; FIFO and buckets lose that socket and are otherwise unchanged |
| `TxSchedule.TxQueue.ArpWait` | pro-stack/socket.c:548-559 | from either list to the head of the bucket of the new address, waiting for that address; FIFO and buckets otherwise unchanged |
| `TxSchedule.TxQueue.ArpResolved` | pro-stack/socket.c:561-579 | walking the bucket by its links while sockets leave it, wakes exactly the sockets waiting for that address, in bucket order; the others stay in the bucket |
| `TxSchedule.TxQueue.OneList` | pro-stack/socket.c:440-559 | a socket is on at most one list, and a waiter in the bucket of its address |
| `TxSchedule.TxQueue.Drain` | pro-stack/socket.c:605-637 | for every script of its flushes the links spell what the same drain leaves on plain sequences; flushes come in FIFO order; exactly sockets without a flush operation are skipped, a socket leaves a list only because the running flush asked for it, one whose last flush asked to be tried again is queued or waiting, and one whose last flush did not, and for which no flush asked since, is on no list; with budget for the queue every socket queued at entry gets its turn |
| `TxSchedule.TxQueue.Act` | pro-stack/socket.c:522-579 | each request of a flush does on the links what it does on plain sequences |
| `TxSchedule.TxQueue.Turn` | pro-stack/socket.c:611-633 | one turn: the head is flushed and goes back to the tail if it asked for it and is on no list, or is skipped |
| `TxSchedule.AllFlushed` | pro-stack/socket.c:605-637 | a socket with a flush operation that got its turn was flushed, unless some flush asked to take it off |
| `TxSchedule.AllIdle` | pro-stack/socket.c:605-637 | if no flush adds anything and the budget covers the queue, each socket with a flush operation is flushed once, in order, and the FIFO ends up empty |
| `TxSchedule.OnceFirst` | pro-stack/socket.c:605-637 | no socket is flushed twice before every socket queued at entry had its turn |

## Left out

- DPDK calls, mbufs, memory pools and rings as hardware objects: a ring is a bounded sequence and an allocation may fail at any time.
- Congestion control, RTT estimation and retransmission back-off: cwnd, SMSS and timer events are arbitrary inputs.
- Connection setup and teardown (SYN handshake, TIME_WAIT, RST handling, aborts other than for a FIN that cannot be queued): the sender and receiver start after the handshake, and state changes caused by the peer are one step that keeps a closed send side closed.
- Timestamps after parsing (PAWS and RTTM of RFC 7323): `tcp_options_process_inbound` would only add easy members.
- The `rte_timer` backend of the timers, whose scheduling lives in a library.
- Lock-free readers of the flow table, weak memory order, futexes and thread cancellation: tables are proved for serialized operations, commands for indivisible steps.
- The 64-bit mixing hash of the dispatch tables and the bucket hash of the address waits: both are arbitrary functions into the table, so the results hold for every hash.
- Dispatch of whole frames (RSS fallback, fan-out, UDP sharing), ICMP, UDP, ARP cache, IPv4 reassembly, bind registry, fd table, logging and metrics other than the ones named: thin next to what is here.
- Wait queues of parked commands: a parked command is on the active list; the order in which waiters wake is not modelled.
- OwnerCommands.Owner.ShutSockets: closing is one step on the set of sockets made by commands, not a walk over slots.
- OwnerCommands.Owner: its intrusive lists are sequences; order, membership and counts are kept, link surgery is not.
- Sack.Scoreboard: the singly linked range lists are sequences; node allocation and the count of nodes are kept.
- SendBuffer.Buffer: the chunk list is a sequence of chunks.
- TcpSend.Sender.Abort: the RST it tries to send, and the receive side it drains (`TcpReceive.Receiver.Discard`), are not part of the step.
- TimerWheel.Wheel.Poll: needs a clock that does not go back and at least 1000 cycles per second, so that tick conversion does not saturate.
- TcpReceive.Receiver.Receive: needs a segment that starts within half the sequence space, and a list whose stale pieces, if it is out of order, lie within a quarter of it.
- TcpReceive.Receiver.MakeReport: is stated for a list in good order; what a stray FIN does to later SACK reports is not.
- OwnerSlots.SlotTable.Post: events are a set instead of a bit mask.
