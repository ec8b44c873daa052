# A model of the NTR-HR streaming stack

NTR-HR streams the screens of a handheld console to a PC. This project models the parts of its streaming
stack that carry the hard guarantees, and proves them with Dafny.

* **Reliable Stream sender** (`Schedule`, `Nack`, `Groups`, `Sender`, `SenderReport`, `SenderRun`,
  `SenderOrder`, `SenderWalk`, `SenderControl`). Packets wait in queues, are put into a delta-coded schedule
  in groups with recovery segments, are sent, and wait for reports of what is missing. `Sender` and `SenderReport`
  give the steps as functions on a state and the invariant they keep; `SenderRun` draws the consequences
  for whole runs; `SenderOrder` is about the order in which packets wait and go out; `SenderControl` has the
  control block as a class whose methods work as the source does and refine those functions.
* **Entropy coder** (`HuffmanOptimal`, `HuffmanTree`, `HuffmanTable`, `HuffmanDepth`, `HuffmanCounters`,
  `CanonicalCode`, `PrefixCode`, `BitWriter`, `BlockCoder`, `WorkerDst`). From symbol frequencies to code
  lengths, limiting, canonical codes, the bit buffer with byte stuffing, the block coder and the packets it
  fills; decoders serve as specifications.
* **Delta codec** (`Dct`, `DctCosine`, `Quantizer`, `DeltaCodec`, `BlockQuantizer`, `Sampling`). The transform, its
  bounds and its distance from cosine sums, quantization by reciprocals, differences between frames at
  changing levels, and the cache of sampled blocks.
* **Lossless coder** (`Lossless`, `LosslessFrames`, `LosslessOrder`, `LosslessEncoder`). Median prediction
  and frame differences in the top bits of the samples, and the encoder's loops over chunks, rows, groups
  and frames.
* **Send path** (`SendPath`, `Ring`, `Mempool`). Threads that append data while a sender cuts packets, the
  semaphore ring that hands over pointers, and the block pool. The first two are state machines whose steps
  are single memory accesses, interleaved in any way.
* **FEC encoder** (`Gf256`, `CarryLess`, `FieldInverse`, `LogTables`, `FecMemory`, `FecMatrix`, `FecEncoder`).
  The field of 256 elements and its tables of logarithms; lane sums and deferred exclusive-or as a product with
  a generator matrix.

`Bits` holds powers of two and bit strings. `dafny verify dfyconfig.toml` checks everything.

## Results that differ from what the source suggests

* `ikcp_input_handle_send_cur_nack` is written to cancel a scheduled group whose packets have all arrived.
  With the group types in use it never does: a recovery segment has resend count zero, which ends the walk
  of a group of three, and a group of one walks to the end of the list. `SenderWalk.HandleSendCurNack`
  states the exact result.
* The cached branch of the delta quantizer computes the difference at the finest level in 16 bits before
  shifting it. When that difference does not fit and a shift follows, the result differs from direct
  quantization and the decoder drifts (`DeltaCodec.LargeInputsDrift` is such a run); `DeltaCodec.CachedAgrees`
  and `DeltaCodec.FrameDecodes` give the exact condition, and the stored value is right in either case. This
  needs inputs beyond 16383 in magnitude, which the transform of 8-bit samples never produces:
  `Dct.VideoNeverDrifts`.
* The reciprocal quantizer is exact for every 16-bit divisor except 65534 (`Quantizer.ExactIff`). The divisors
  the program computes are at most 3925 (`Quantizer.DivisorsInUse`), so that one is never used.
* `gen_optimal_table` panics when a code is longer than 32 bits. Some table of a given total weight needs such
  a code if and only if the total is at least 9227465 (`HuffmanDepth.NoDeepCodeIff`), although the source allows
  totals up to 10^9. The pseudo-symbol is proved, not assumed, to be among the deepest.
* `gen_optimal_table` counts code lengths in eight bits, which is too few when 256 entries share a length. Two
  shapes of code do that (`HuffmanTable.CountersRight`): 256 entries of eight bits, as for 255 symbols that
  occur once each, where it panics (`HuffmanCounters.EqualPanics`); and one entry of one bit with 256 of nine,
  where the table comes out without any code (`HuffmanCounters.HeavyIsEmpty`). Fewer than 255 symbols in use
  rule out both (`HuffmanTable.GenOptimalTable`).

## Model

| member | source | states |
|---|---|---|
| `Schedule.FirstFreeIsLeast` | source/nwm_misc/ikcp.c:799-840 | the slot an insertion uses is free, and every slot from the request up to it is taken |
| `Schedule.InsertStandalone` | source/nwm_misc/ikcp.c:799-840 | the delta-coded insertion puts the segment in the least free slot at or after its request, returns exactly the displacement, and moves no other segment |
| `Schedule.LinkKeepsSlots` | source/nwm_misc/ikcp.c:832-836 | linking a segment and taking its slots off the next delta inserts one absolute slot and keeps all others |
| `Schedule.SlotsIncreasing` | source/nwm_misc/ikcp.c:799-840 | absolute slots of a delta-coded schedule are strictly increasing |
| `Schedule.UnlinkKeepsSlots` | source/nwm_misc/ikcp.c:421-430 | unlinking in the middle and giving the delta to the next segment keeps every other segment at its slot |
| `Schedule.PopShifts` | source/nwm_misc/ikcp.c:1055-1097 | sending the head moves every other slot forward by the same amount |
| `Nack.CheckNack` | source/nwm_misc/ikcp.c:290-304 | the loop with its early exit computes `Nacked` |
| `Nack.NackedIsMember` | source/nwm_misc/ikcp.c:290-304 | for sorted ranges in one id window the early exit never changes the answer: the scan decides membership in the reported ranges |
| `Nack.ReportMeans` | source/nwm_misc/ikcp.c:627-650 | ranges written into report words and parsed again name exactly the packets of the ranges, the last one open to a quarter of the id space |
| `Nack.ParseNacks` | source/nwm_misc/ikcp.c:627-650 | at most 453 ranges are accepted; each has 12 bits of start and 4 of count, the last one open to a quarter of the id space |
| `Groups.FewRecoveries` | source/nwm_misc/ikcp.c:20-40 | in any list of complete groups there are at least two original segments for every recovery segment |
| `Groups.RemoveGroupOk` | source/nwm_misc/ikcp.c:306-378 | taking a whole group out of a list leaves every other group complete and in order |
| `Sender.QueueInv` | source/nwm_misc/ikcp.c:206-265 | queueing keeps the sender invariant: group order, unique ids, conservation, counts, buffer ownership |
| `Sender.QueueLive` | source/nwm_misc/ikcp.c:243-262 | queueing adds exactly the new packet number to the packets held, for ordinary and for audio packets |
| `Sender.ScheduleOneInv` | source/nwm_misc/ikcp.c:999-1053 | scheduling a packet alone keeps the invariant and every packet |
| `Sender.ScheduleTwoInv` | source/nwm_misc/ikcp.c:897-991 | scheduling two packets with a recovery segment keeps the invariant and every packet: the three members come out in group order whatever slots they find |
| `Sender.GroupIsSpread` | source/nwm_misc/ikcp.c:897-991 | the members of a group of three are at least the send interval apart, each in the first free slot from there on, and nothing else in the schedule moves |
| `Sender.PlaceMembers` | source/nwm_misc/ikcp.c:799-840 | inserting a segment into the schedule changes no other group, and puts a segment with a later slot last in its group |
| `Sender.FreshGroup` | source/nwm_misc/ikcp.c:901-904 | while groups in flight span less than the id space, the 12-bit id of a new group is unused |
| `Sender.SendInv` | source/nwm_misc/ikcp.c:1055-1097 | sending the head keeps the invariant and every packet; a recovery segment gives its buffer back exactly once |
| `Sender.SendInFlight` | source/nwm_misc/ikcp.c:1055-1097 | sent segments followed by scheduled ones stay the same list |
| `Sender.PoolBounds` | source/nwm_misc/ikcp.h:324-331 | in every state that satisfies the invariant, recovery segments are at most half the originals, and neither the segment pool nor the recovery-buffer pool can run dry |
| `SenderReport.AtOrBeforeMeaning` | source/nwm_misc/ikcp.c:655 | for group numbers less than half the id space apart, the bit test on 12-bit ids compares the numbers |
| `SenderReport.GroupInWak` | source/nwm_misc/ikcp.c:306-378 | an end mark in the waiting list has its complete group before it, none of it behind it and none in the schedule |
| `SenderReport.SettleGroupInv` | source/nwm_misc/ikcp.c:306-378 | settling a finished group keeps the invariant and drops only packets that were not reported missing |
| `SenderReport.ScanInv` | source/nwm_misc/ikcp.c:652-664 | the walk over the waiting list keeps the invariant at every step and drops only packets outside the reported ranges |
| `SenderReport.PruneInv` | source/nwm_misc/ikcp.c:457-478 | pruning a resend list keeps the invariant and drops only packets outside the reported ranges |
| `SenderReport.ReportInv` | source/nwm_misc/ikcp.c:652-673 | a whole report keeps the invariant; packets held before are those held after plus packets outside all reported ranges |
| `SenderReport.ReportExactly` | source/nwm_misc/ikcp.c:652-673 | a report takes exactly the settled groups out of the waiting list, leaves only named packets in the resend lists, and does not touch new packets or the schedule |
| `SenderRun.Run` | source/nwm_misc/ikcp.c:206-1097 | every state reached by any sequence of events satisfies the invariant |
| `SenderRun.NoPacketLost` | source/nwm_misc/ikcp.c:206-478 | in any run, every packet ever queued is held exactly once, or some report that did not name it released it |
| `SenderRun.ReleasedForGood` | source/nwm_misc/ikcp.c:206-478 | a released packet never comes back, so the two cases of `NoPacketLost` exclude each other |
| `SenderRun.ReleasedOutsideRanges` | source/nwm_misc/ikcp.c:290-304 | a released packet lies outside all ranges of the report, when these are sorted and in one id window |
| `SenderRun.EveryRun` | source/nwm_misc/ikcp.c:90-111 | in every state of every run `n_snd` counts the packets held, stays within 453, and both pools have a block left |
| `SenderRun.StaysInWindow` | source/nwm_misc/ikcp.c:219-221 | a step leaves the packets held within the window exactly if it sets no window size below their number |
| `SenderRun.AlwaysInWindow` | source/nwm_misc/ikcp.c:1166-1188 | over a whole run the packets held stay within the window if and only if no new window size is below the number held when it is set |
| `SenderOrder.QueuePlace` | source/nwm_misc/ikcp.c:243-262 | a new packet waits behind all others; an audio packet waits behind the packets missed three times and before all others |
| `SenderOrder.AlwaysInOrder` | source/nwm_misc/ikcp.c:206-1097 | in every state of every run the numbers of the new packets increase along the queue and are the last ones given out |
| `SenderOrder.FirstComeFirstServed` | source/nwm_misc/ikcp.c:206-1097 | over a whole run, while an ordinary packet waits in the queue, so does every ordinary packet queued after it |
| `SenderOrder.OldestFirst` | source/nwm_misc/ikcp.c:769-797 | when no resend list holds a packet, the next group takes the oldest new packet, and all that still wait are younger |
| `SenderOrder.MostMissedFirst` | source/nwm_misc/ikcp.c:747-767 | packets missed more often wait before those missed less often, and the next group takes the first one |
| `SenderOrder.GroupChoice` | source/nwm_misc/ikcp.c:864-1053 | a group of three takes two packets, exactly when some packet was missed three times and a second one waits; otherwise a group of one takes one, and with nothing to send the schedule stays |
| `SenderOrder.GroupIsEarly` | source/nwm_misc/ikcp.c:897-991 | each member of a group of three takes the earliest free slot that keeps the send interval to the member before it |
| `SenderOrder.IntervalIsThird` | source/nwm_misc/ikcp.c:1166-1188 | the send interval is a third of the schedule window, rounded to the nearest, and the windows are cut off at their greatest sizes |
| `SenderOrder.SettleGroupGoes` | source/nwm_misc/ikcp.c:306-378 | when a group is settled, each resend list gets at its end exactly the missing members that belong there, one list further than before and no further than the last, in order |
| `SenderOrder.KeptIs` | source/nwm_misc/ikcp.c:457-478 | pruning a list keeps exactly the packets named by the report, in their order |
| `SenderWalk.MemberAt` | source/nwm_misc/ikcp.c:316-321 | walking back from the end of a complete group, each member has the position and type the walk expects |
| `SenderWalk.PreviousIsMember` | source/nwm_misc/ikcp.c:359-373 | looking back for the group id finds the previous member and never reaches the head of the list |
| `SenderWalk.WalkSettles` | source/nwm_misc/ikcp.c:316-352 | each unlink of the backward walk settles one member and leaves the rest of the list alone |
| `SenderWalk.ScheduleWalkStart` | source/nwm_misc/ikcp.c:676-679 | a first member found in the schedule has its whole group behind it, in order |
| `SenderWalk.HandleSendCurNack` | source/nwm_misc/ikcp.c:380-455 | the walk over the schedule meets no error; with the group types in use it never cancels a group: the result is 1 for a group of three and 2 for a group of one |
| `SenderControl.Control.constructor` | source/nwm_misc/ikcp.c:123-150 | a new control block is the initial state |
| `SenderControl.Control.QueuePacket` | source/nwm_misc/ikcp.c:206-265 | the result code for every length and window, and the new state: the place at which the packet waits among all others; the segment pool is never found empty |
| `SenderControl.Control.FirstQueue` | source/nwm_misc/ikcp.c:747-767 | the iterator stops at the first queue that holds something |
| `SenderControl.Control.QueueSendCur` | source/nwm_misc/ikcp.c:864-1053 | scheduling the next group refines `NextGroup`, falls back to a group of one when a second packet is missing, and returns no error code |
| `SenderControl.Control.SendReady` | source/nwm_misc/ikcp.c:1196-1215 | the schedule is extended when its first slot is free; the result is the number of slots to let pass |
| `SenderControl.Control.SendCur` | source/nwm_misc/ikcp.c:1055-1097 | the result code for every outcome of the datagram output, and the state changes only when it was sent; send time and notification are not modelled |
| `SenderControl.Control.WndSize` | source/nwm_misc/ikcp.c:1166-1188 | window sizes and send interval, with the error codes |
| `SenderControl.Control.HandleSendWakNack` | source/nwm_misc/ikcp.c:306-378 | the backward walk returns no error, refines settling the group, and leaves the list behind the saved next node as it was |
| `SenderControl.Control.HandleNack` | source/nwm_misc/ikcp.c:457-478 | the loop that frees packets in place refines pruning |
| `SenderControl.Control.ScanWak` | source/nwm_misc/ikcp.c:652-664 | the loop with a saved next node refines the walk over the waiting list |
| `SenderControl.Control.Input` | source/nwm_misc/ikcp.c:570-690 | every datagram: error codes and foreign datagrams change nothing, the others establish the session or handle a report; congestion control and the retry flag are not modelled |
| `HuffmanTree.FindTwoLeast` | source/nwm_rs/src/encoder/vars.rs:1086-1102 | the scan finds the first and second live entries in the order of weight, ties going to the larger symbol |
| `HuffmanTree.KraftOfMerge` | source/nwm_rs/src/encoder/vars.rs:1109-1130 | lengthening two trees by one bit and joining them averages their Kraft sums |
| `HuffmanTree.MergeComplete` | source/nwm_rs/src/encoder/vars.rs:1109-1130 | one merge keeps the Kraft sum of every live tree at one, loses no weight and leaves one tree less |
| `HuffmanTree.DeepestStep` | source/nwm_rs/src/encoder/vars.rs:1080-1131 | merging the two least trees keeps the pseudo-symbol deepest in its tree, and a tree of each height at least as heavy as a Fibonacci number |
| `HuffmanOptimal.Tighten` | source/nwm_rs/src/encoder/vars.rs:1080-1131 | any lengths that satisfy Kraft's inequality can be changed, at no more cost, so that the two least weights have the greatest length |
| `HuffmanOptimal.BestStep` | source/nwm_rs/src/encoder/vars.rs:1109-1130 | merging the two least weights keeps a code of least total length within reach |
| `HuffmanTree.CodeLengths` | source/nwm_rs/src/encoder/vars.rs:1080-1131 | the loop computes `Lengths`: they have Kraft sum one and the least total length of all that satisfy Kraft's inequality; no symbol is deeper than the pseudo-symbol, and depth `h` needs a Fibonacci total weight |
| `HuffmanTable.Compact` | source/nwm_rs/src/encoder/vars.rs:1066-1076 | the used symbols are packed to the front in order, with the same total |
| `HuffmanTable.CountLengths` | source/nwm_rs/src/encoder/vars.rs:1133-1142 | counts of symbols by length in counters of eight bits; it panics exactly when a length exceeds 32 |
| `HuffmanTable.CountersRight` | source/nwm_rs/src/encoder/vars.rs:1133-1142 | the counters are right unless 256 entries have eight bits each, or 256 have nine bits and one has one bit |
| `HuffmanTable.LongestIsEven` | source/nwm_rs/src/encoder/vars.rs:1166-1178 | when codes longer than 16 bits fill the code space, the longest class is even and a non-empty class at least two bits shorter exists |
| `HuffmanTable.LimitOnce` | source/nwm_rs/src/encoder/vars.rs:1173-1176 | a limiting step takes a pair from the longest class and splits the longest class at least two bits shorter; it never underflows, keeps every counter within eight bits, the number of symbols and the filled code space |
| `HuffmanTable.Limit` | source/nwm_rs/src/encoder/vars.rs:1166-1178 | limiting ends with no code longer than 16 bits, the same number of symbols and the code space exactly filled |
| `HuffmanTable.DropLongest` | source/nwm_rs/src/encoder/vars.rs:1180-1187 | dropping the pseudo-symbol leaves counts that canonical assignment can use, with one symbol less; it panics exactly when no counter is in use |
| `HuffmanTable.SlotOrder` | source/nwm_rs/src/encoder/vars.rs:1197-1200 | slots order symbols by code length and then by number, so no two collide |
| `HuffmanTable.ListSymbols` | source/nwm_rs/src/encoder/vars.rs:1192-1200 | the symbol list is the stable sort of the real symbols by code length; the pseudo-symbol would take the last place |
| `HuffmanTable.GenOptimalTable` | source/nwm_rs/src/encoder/vars.rs:1039-1201 | it panics exactly when a length exceeds 32 or all 256 entries have eight bits; the table lists each used symbol exactly once, in the order of code length, with assignable counts, and if no length exceeds 16 each symbol in the class of its own length; it is empty when lengths are one and nine bits |
| `HuffmanDepth.DeepTable` | source/nwm_rs/src/encoder/vars.rs:1136-1139 | for every total from 9227465 up to 10^9 there is a table, of 33 symbols with Fibonacci weights, that needs a code of 33 bits |
| `HuffmanDepth.DepthNeedsWeight` | source/nwm_rs/src/encoder/vars.rs:1080-1131 | the total of a table is at least the Fibonacci number of its greatest length |
| `HuffmanDepth.NoDeepCodeIff` | source/nwm_rs/src/encoder/vars.rs:1136-1139 | no table of a given total needs a code longer than 32 bits if and only if the total is below 9227465 |
| `HuffmanCounters.EqualPanics` | source/nwm_rs/src/encoder/vars.rs:1180-1185 | 255 symbols that occur once each all get eight bits, so the generator panics although the total is 256 |
| `HuffmanCounters.HeavyIsEmpty` | source/nwm_rs/src/encoder/vars.rs:1133-1190 | one symbol that occurs 256 times and 255 that occur once get lengths of one and nine bits, so the table comes out empty |
| `CanonicalCode.GenerateSizes` | source/nwm_rs/src/encoder/vars.rs:591-616 | Figure C.1 of ITU-T T.81; it panics exactly when there are more than 256 codes |
| `CanonicalCode.GenerateCodes` | source/nwm_rs/src/encoder/vars.rs:618-639 | Figure C.2 of ITU-T T.81: canonical code words; it panics exactly when some length would reach its all-ones word |
| `CanonicalCode.FillTables` | source/nwm_rs/src/encoder/vars.rs:641-668 | Figure C.3 of ITU-T T.81; it panics exactly when a symbol is out of range or repeated |
| `CanonicalCode.CodesOrdered` | source/nwm_rs/src/encoder/vars.rs:618-639 | later code words lie above all extensions of earlier ones |
| `CanonicalCode.DerivedPrefixFree` | source/nwm_rs/src/encoder/vars.rs:591-670 | derived tables are prefix-free |
| `CanonicalCode.SetDerivedTbl` | source/nwm_rs/src/encoder/vars.rs:591-670 | succeeds exactly for legal counts and symbols; the code is prefix-free, never all ones, and has words of at most 16 bits for exactly the listed symbols; each symbol has the length of its class and the word of the recurrence of Figure C.2 |
| `CanonicalCode.BuildCode` | source/nwm_rs/src/encoder/vars.rs:1039-1201 | from frequencies to code: it panics exactly when the table generator does, and otherwise exactly the symbols that occur get a code word, or none if the table came out empty; a shorter merge length never gives a longer word; if no merge length exceeds 16, every word has its merge length, and the words, with the pseudo-symbol counted once, need the least bits of all lengths that satisfy Kraft's inequality |
| `PrefixCode.DecodeEncode` | source/nwm_rs/src/encoder/vars.rs:574-586 | decoding the code words of a symbol sequence, whatever follows them, returns the sequence |
| `BitWriter.UnstuffStuff` | source/nwm_rs/src/encoder/encode/encode_buffer.rs:69-85 | removing stuffed zeros recovers the bytes exactly |
| `BitWriter.FastPathSafe` | source/nwm_rs/src/encoder/encode/encode_buffer.rs:87-107 | if the word test takes the fast path, no byte of the word is 0xFF |
| `BitWriter.Writer.PutAndFlush` | source/nwm_rs/src/encoder/encode/encode_buffer.rs:109-119 | a code that overflows the word is split correctly, although the whole code stays in the word as stale high bits |
| `BitWriter.Writer.PutBits` | source/nwm_rs/src/encoder/encode/encode_buffer.rs:121-130 | a put appends exactly its bits to the stream |
| `BitWriter.Writer.PutCode` | source/nwm_rs/src/encoder/encode/encode_buffer.rs:132-139 | a put of a code word with magnitude bits appends both |
| `BitWriter.Writer.FlushTail` | source/nwm_rs/src/encoder/worker.rs:20-40 | the final flush pads the stream with ones to a whole byte |
| `BitWriter.WriteAll` | source/nwm_rs/src/encoder/encode/encode_buffer.rs:69-139 | for any puts and the flush, unstuffing the output gives the codes followed by fewer than eight ones |
| `BlockCoder.ZigZagRoundTrip` | source/nwm_rs/src/encoder/vars.rs:1032-1036 | the zig-zag order is a permutation with the standard inverse |
| `BlockCoder.ZigZagOrder` | source/nwm_rs/src/encoder/vars.rs:1032-1036 | the order goes through the block along its diagonals, in turn upward and downward |
| `BlockCoder.ReadValueBack` | source/nwm_rs/src/encoder/encode/compress.rs:345-360 | magnitude bits of a positive or negative value are read back to the value |
| `BlockCoder.AcRoundTrip` | source/nwm_rs/src/encoder/encode/compress.rs:362-397 | decoding the run-length code with ZRL and EOB returns all coefficients (section F.1.2.2 of ITU-T T.81) |
| `BlockCoder.BlockRoundTrip` | source/nwm_rs/src/encoder/encode/compress.rs:313-402 | decoding a coded block returns it |
| `BlockCoder.ScanRoundTrip` | source/nwm_rs/src/encoder/encode/compress.rs:217-311 | decoding a sequence of blocks of several components, each with its own DC prediction, returns them |
| `BlockCoder.EncodeOneBlock` | source/nwm_rs/src/encoder/encode/compress.rs:313-402 | the coder appends exactly the bits of the block and returns the next DC prediction |
| `BlockCoder.EncodeScan` | source/nwm_rs/src/encoder/encode/compress.rs:217-402 | end to end: a decoder given the output bytes recovers exactly the blocks; only padding ones are left |
| `WorkerDst.Dst.WriteByte` | source/nwm_rs/src/encoder/worker_dst.rs:33-44 | a written byte is appended to the stream, flushing a full packet first |
| `WorkerDst.Dst.WriteBytes` | source/nwm_rs/src/encoder/worker_dst.rs:46-77 | bytes that fill up a packet and start the next one are appended to the stream |
| `WorkerDst.Dst.AdvanceTo` | source/nwm_rs/src/encoder/worker_dst.rs:107-110 | bytes written directly into the packet become part of the stream |
| `WorkerDst.Dst.StoreBlock` | source/nwm_rs/src/encoder/encode/encode_buffer.rs:23-67 | the local-buffer path and the direct path add the same bytes |
| `WorkerDst.Dst.Term` | source/nwm_rs/src/encoder/worker_dst.rs:92-105 | full packets and the last one concatenate to exactly the bytes written |
| `WorkerDst.AcLength` | source/nwm_rs/src/encoder/encode/compress.rs:362-397 | with 16-bit codes and 11-bit magnitudes the run-length code has at most 27 bits for each coefficient |
| `WorkerDst.EncodeWithinLocal` | source/nwm_rs/src/encoder/encode/compress.rs:323-343 | one block writes at most 444 bytes, whatever was pending in the word, so the zero stored one place behind each byte stays inside the local buffer of 512 |
| `WorkerDst.StoreTail` | source/nwm_rs/src/encoder/worker.rs:20-40 | the last bytes go through a local buffer of 16 bytes in the same way |
| `WorkerDst.EncodeToPackets` | source/nwm_rs/src/encoder/encode/compress.rs:217-402 | end to end: a decoder given the bytes of all packets in order recovers exactly the blocks; all packets but the last are full |
| `Quantizer.Flss` | source/nwm_rs/src/encoder/vars.rs:483-511 | the binary search finds the number of bits of a 16-bit value |
| `Quantizer.ReciprocalExact` | source/nwm_rs/src/encoder/vars.rs:513-552 | the product of reciprocal and corrected magnitude fits in 32 bits and holds the quotient rounded to the nearest |
| `Quantizer.QuantizeExact` | source/nwm_rs/src/encoder/encode/forward_dct.rs:385-396 | in machine arithmetic the quantizer rounds to the nearest and restores the sign; a delta shift truncates that quotient toward zero |
| `Quantizer.QuantizeInexact` | source/nwm_rs/src/encoder/vars.rs:513-552 | for divisor 65534, which the program never computes, the stored correction overflows and zero is quantized to one |
| `Quantizer.ExactIff` | source/nwm_rs/src/encoder/vars.rs:513-552 | the quantizer is exact for all 16-bit magnitudes if and only if the divisor is not 65534 |
| `Quantizer.ShiftBelowWidth` | source/nwm_rs/src/encoder/vars.rs:513-552 | the stored shift stays below the width of the word |
| `Quantizer.DivisorsInUse` | source/nwm_rs/src/encoder/vars.rs:555-580 | the divisors the program computes are at most 3925, and at most 15 for the finest quantization |
| `DeltaCodec.UsableInProgram` | source/nwm_rs/src/encoder/vars.rs:555-580 | with the divisors of the finest quantization, shifts of up to 12 more bits stay below the width of the word |
| `DeltaCodec.TruncateIs` | source/nwm_rs/src/encoder/encode/forward_dct.rs:438-457 | the shift with its correction for negative fractions truncates toward zero |
| `DeltaCodec.AsrDifference` | source/nwm_rs/src/encoder/encode/compress.rs:133-162 | the shift of a difference in terms of the shifts and fractions of both numbers |
| `DeltaCodec.CachedAgrees` | source/nwm_rs/src/encoder/encode/compress.rs:123-165 | the cached branch always stores the same value as direct quantization, and gives the same difference if and only if the finest-level difference fits in 16 bits or needs no shift |
| `DeltaCodec.RestoredIs` | source/nwm_rs/src/encoder/encode/forward_dct.rs:438-457 | the encoder brings a stored coefficient to another level as a receiver does that multiplies by a power of two, or divides by one toward zero |
| `DeltaCodec.FrameDecodes` | source/nwm_rs/src/encoder/encode/forward_dct.rs:398-457 | one frame keeps encoder and decoder together if and only if it is coded directly or its cached difference fits |
| `DeltaCodec.NoDrift` | source/nwm_rs/src/encoder/encode/forward_dct.rs:398-457 | over any sequence of frames and level changes the decoder holds exactly what the encoder stored, which is the last input quantized at the last level |
| `DeltaCodec.SmallCachedAgrees` | source/nwm_rs/src/encoder/encode/compress.rs:123-165 | for inputs of magnitude at most 16383 the cached branch always agrees with direct quantization, at every level and with every table |
| `DeltaCodec.SmallNoDrift` | source/nwm_rs/src/encoder/encode/forward_dct.rs:398-457 | for such inputs encoder and decoder never drift apart, whatever the levels and the sampled blocks |
| `DeltaCodec.LargeInputsDrift` | source/nwm_rs/src/encoder/encode/compress.rs:123-165 | a run of two frames with inputs 32767 and -32767 after which the decoder differs from the encoder |
| `Dct.FdctIfast` | source/nwm_rs/src/encoder/encode/forward_dct.rs:164-265 | the loops over rows and columns compute `Transformed`, whose coefficients `DctCosine.BlockNear` compares with cosine sums |
| `DctCosine.QuarterIsCosine` | source/nwm_rs/src/encoder/encode/forward_dct.rs:8-30 | the constants of the comparison are cosines: they fall from one to zero and satisfy the double-angle formula up to rounding |
| `DctCosine.TransformNear` | source/nwm_rs/src/encoder/encode/forward_dct.rs:164-217 | for eight inputs within 1416, output `k` lies within a stated error of the `k`-th scaled cosine sum |
| `DctCosine.BlockNear` | source/nwm_rs/src/encoder/encode/forward_dct.rs:164-265 | for samples of eight bits, every coefficient of a block lies within 57 of its scaled two-dimensional cosine sum |
| `Dct.TransformBound` | source/nwm_rs/src/encoder/encode/forward_dct.rs:172-217 | eight inputs of magnitude at most 1416 give outputs of at most eleven times that plus eight, and nothing wraps |
| `Dct.CoefficientBound` | source/nwm_rs/src/encoder/encode/forward_dct.rs:127-265 | samples of eight bits give coefficients of magnitude at most 16383 |
| `Dct.VideoNeverDrifts` | source/nwm_rs/src/encoder/encode/forward_dct.rs:398-457 | for video of 8-bit samples encoder and decoder never drift apart: no condition on coefficients is left |
| `BlockQuantizer.DoQuantize` | source/nwm_rs/src/encoder/encode/forward_dct.rs:375-432 | the loop over a block, for every combination of its flags |
| `BlockQuantizer.CodeDirect` | source/nwm_rs/src/encoder/encode/compress.rs:173-203 | coding a block in place is direct coding of every coefficient |
| `BlockQuantizer.SampleBlock` | source/nwm_rs/src/encoder/delta_q.rs:199-243 | sampling quantizes every coefficient at the finest level and brings the stored block there |
| `BlockQuantizer.CodeCached` | source/nwm_rs/src/encoder/encode/compress.rs:123-165 | the cached branch on arrays |
| `Sampling.RankIsUnique` | source/nwm_rs/src/encoder/delta_q.rs:94-99 | a drawn rank selects exactly one unused index |
| `Sampling.Unused` | source/nwm_rs/src/encoder/delta_q.rs:94-99 | passing over the used indices in order gives the unused index of the drawn rank |
| `Sampling.Insert` | source/nwm_rs/src/encoder/delta_q.rs:100-113 | the shift loop inserts into the increasing list in place |
| `Sampling.GenUniqueIndices` | source/nwm_rs/src/encoder/delta_q.rs:87-115 | the indices are strictly increasing and in range, each draw adding the unused index of its rank |
| `Sampling.PositionsDiffer` | source/nwm_rs/src/encoder/delta_q.rs:171-189 | different block indices lie at different places |
| `Sampling.ScanBlocks` | source/nwm_rs/src/encoder/encode/compress.rs:109-171 | visiting blocks in order hits every sampled block exactly once and no other block |
| `Lossless.MedianTrunc` | source/nwm_rs/src/encoder/encode/compress.rs:885-889 | the median commutes with dropping low bits |
| `Lossless.PredictIs` | source/nwm_rs/src/encoder/encode/compress.rs:892-903 | the prediction is the middle one of upper, left and upper-left sample, the one there is at an edge, and 128 in the corner |
| `Lossless.ResidualInvertible` | source/nwm_rs/src/encoder/encode/compress.rs:905-911 | the residual in `b` bits gives back the top bits of the sample from those of the prediction, and lies in the coded alphabet |
| `Lossless.PredRoundTrip` | source/nwm_rs/src/encoder/encode/compress.rs:892-911 | a receiver with a predictor of its own, on truncated neighbours alone, restores predicted samples |
| `Lossless.DiffRoundTrip` | source/nwm_rs/src/encoder/encode/compress.rs:1058-1068 | a receiver restores samples from the truncated previous frame |
| `LosslessFrames.RowRoundTrip` | source/nwm_rs/src/encoder/encode/compress.rs:1023-1089 | a row is recovered whichever coding each chunk of 30 samples chose |
| `LosslessFrames.RowIsShortest` | source/nwm_rs/src/encoder/encode/compress.rs:1065-1088 | no other choice of codings for the chunks of a row gives fewer bits |
| `LosslessFrames.FrameRoundTrip` | source/nwm_rs/src/encoder/encode/compress.rs:949-1092 | the rows of several components, coded in turn, are recovered |
| `LosslessFrames.StreamRoundTrip` | source/nwm_rs/src/encoder/encode/compress.rs:949-1092 | over any sequence of frames a receiver that holds only truncated samples recovers the top bits of every sample |
| `LosslessFrames.OrderIsComplete` | source/nwm_rs/src/encoder/encode/compress.rs:1008-1020 | coding group after group visits every row of every component |
| `LosslessEncoder.Encoder.EncodeChunk` | source/nwm_rs/src/encoder/encode/compress.rs:1026-1088 | the loop codes a chunk both ways, keeps the stored row up to date and emits the shorter coding |
| `LosslessEncoder.Encoder.EncodeRow` | source/nwm_rs/src/encoder/encode/compress.rs:1023-1089 | a row is coded chunk by chunk; afterwards the stored row is the row just coded |
| `LosslessEncoder.UpperNeighbour` | source/nwm_rs/src/encoder/encode/compress.rs:1030-1041 | across the two halves of the row buffer, the row taken as upper neighbour is the true one |
| `LosslessEncoder.LoadKeeps` | source/nwm_rs/src/encoder/encode/compress.rs:1019-1021 | loading a group over the one before the last keeps the last one |
| `LosslessEncoder.Encoder.EncodeGroup` | source/nwm_rs/src/encoder/encode/compress.rs:1019-1090 | the rows of a group are coded with their true upper neighbours, and the stored rows become those of this frame |
| `LosslessOrder.GroupIsPart` | source/nwm_rs/src/encoder/encode/compress.rs:1008-1090 | rows of one component coded together are what the order of the frame asks for next |
| `LosslessEncoder.Encoder.EncodeFrame` | source/nwm_rs/src/encoder/encode/compress.rs:950-1092 | loading and coding group after group emits exactly the bits of the frame in the order of the groups, and leaves this frame stored |
| `LosslessEncoder.Encoder.EncodeStream` | source/nwm_rs/src/encoder/encode/compress.rs:950-1092 | over any sequence of frames a receiver recovers the top bits of every sample from what the loops emitted |
| `SendPath.StepInv` | source/nwm_rs/src/entries/thread_nwm/vars.rs:775-911 | every step of any thread keeps the invariant of the send path |
| `SendPath.AppendInv` | source/nwm_rs/src/entries/thread_nwm/vars.rs:1575-1596 | a thread that may still write lies at or behind everything the sender has finished with |
| `SendPath.DecideInv` | source/nwm_rs/src/entries/thread_nwm/vars.rs:790-911 | giving up, committing a packet and moving to the next thread all keep the invariant |
| `SendPath.SentIsJoined` | source/nwm_rs/src/entries/thread_nwm/vars.rs:709-911 | for any interleaving the packets are the data of thread 0, then thread 1, and so on; all but the last are full, only the last of a finished frame carries the end mark, and the counter numbers them |
| `SendPath.NoPacketNoChange` | source/nwm_rs/src/entries/thread_nwm/vars.rs:790-860 | a sender step that sends nothing changes nothing but the sender's own place |
| `SendPath.SendsFrom` | source/nwm_rs/src/entries/thread_nwm/vars.rs:715-750 | once all threads have finished, the next packet comes within two steps for each thread |
| `SendPath.Completes` | source/nwm_rs/src/entries/thread_nwm/vars.rs:715-911 | once all threads have finished, the sender alone completes the frame |
| `Ring.StepInv` | source/nwm_misc/rp_syn.c:34-103 | every access of every thread keeps the invariant of the ring |
| `Ring.WritesEmpty` | source/nwm_misc/rp_syn.c:82-95 | the slot a producer writes is empty |
| `Ring.ReadsFull` | source/nwm_misc/rp_syn.c:34-52 | the slot the consumer reads is full and holds the oldest pointer not delivered |
| `Ring.RingIsSafe` | source/nwm_misc/rp_syn.c:34-103 | with at most `count` pointers on their way, no run reads an empty slot or overwrites a full one, and pointers are delivered once each in the order in which they were written |
| `Mempool.Pool.Malloc` | source/nwm_misc/mempool.c:56-120 | a block that is not in use, and none exactly when all are |
| `Mempool.Pool.Free` | source/nwm_misc/mempool.c:121-145 | exactly the given block leaves the blocks in use |
| `Mempool.LiveCount` | source/nwm_misc/mempool.c:56-145 | every block handed out is either free or in use, and not both |
| `Gf256.MulAdd` | source/nwm_misc/gf256.h:206-218 | multiplication distributes over addition on both sides |
| `Gf256.MulAssoc` | source/nwm_misc/gf256.h:206-218 | multiplication modulo the field polynomial is associative |
| `Gf256.MulUnits` | source/nwm_misc/gf256.cpp:1268-1277 | one is neutral and zero absorbs |
| `CarryLess.MulIsRemainder` | source/nwm_misc/gf256.h:206-218 | a product is the remainder of the carry-less product modulo 0x14d, and nothing else is |
| `CarryLess.ModulusIs` | source/nwm_misc/gf256.cpp:358-371 | the modulus is 0x14d, the default polynomial 0xa6 shifted with its lowest bit |
| `FieldInverse.InverseIs` | source/nwm_misc/gf256.cpp:449-453 | every nonzero element has an inverse |
| `FieldInverse.NoZeroDivisors` | source/nwm_misc/gf256.h:206-218 | a product is zero if and only if a factor is |
| `LogTables.OrderOfX` | source/nwm_misc/gf256.cpp:378-391 | the powers of x reach one at 255 and not before |
| `LogTables.EveryPower` | source/nwm_misc/gf256.cpp:378-391 | every nonzero element is one of the powers 1 to 255 of x |
| `LogTables.InitExpLog` | source/nwm_misc/gf256.cpp:378-401 | the tables hold two rounds of powers, then zeros, and the logarithms of the powers |
| `LogTables.LookUp` | source/nwm_misc/gf256.cpp:424-440 | adding logarithms multiplies, and adding the complement of one divides |
| `LogTables.InitMulDiv` | source/nwm_misc/gf256.cpp:410-442 | every entry of the two tables is the product, or a quotient; quotients by zero are zero |
| `LogTables.InitInvSqr` | source/nwm_misc/gf256.cpp:449-464 | the tables of inverses and squares, from those of quotients and products |
| `LogTables.InverseEntry` | source/nwm_misc/gf256.cpp:449-453 | an entry of the table of inverses times its element is one |
| `LogTables.TablesAgree` | source/nwm_misc/gf256.h:206-225 | multiplying through the table is multiplication in the field, and dividing through the table undoes it |
| `FecMemory.AddMem` | source/nwm_misc/gf256.cpp:653-826 | adding in blocks of eight, four and single bytes adds every byte |
| `FecMemory.Add2Mem` | source/nwm_misc/gf256.cpp:829-947 | adding two buffers in blocks adds both to every byte |
| `FecMemory.MulAddMem` | source/nwm_misc/gf256.cpp:1268-1495 | multiply-add in blocks, with its special cases, adds the product to every byte |
| `FecMemory.XorSummer.AddBuffer` | source/nwm_misc/FecalCommon.h:537-551 | an added buffer enters the sum whether it is deferred or paired |
| `FecMemory.XorSummer.AddDirectly` | source/nwm_misc/FecalEncoder.cpp:93-97 | a direct addition while a buffer is waiting does not disturb the sum |
| `FecMemory.XorSummer.Finalize` | source/nwm_misc/FecalCommon.h:553-560 | finalizing leaves exactly the sum in the destination |
| `FecMatrix.ColumnNumbersDiffer` | source/nwm_misc/FecalCommon.h:126-137 | column values agree exactly for columns a multiple of 253 apart |
| `FecMatrix.NextColumn` | source/nwm_misc/FecalCommon.h:126-137 | column values start at 3 and go on by 199 around the numbers from 3 to 255 |
| `FecMatrix.NextRow` | source/nwm_misc/FecalCommon.h:139-142 | row values start at 2 and go on by one around the numbers from 1 to 255 |
| `FecMatrix.OutputIsDot` | source/nwm_misc/FecalEncoder.cpp:129-230 | lane sums, random columns and the row factor together are a product with one row of a matrix |
| `FecMatrix.CoefficientIs` | source/nwm_misc/FecalEncoder.cpp:150-230 | the coefficient of a column: parity of its picks plus the chosen powers of its value, in both halves |
| `FecMatrix.OutputLinear` | source/nwm_misc/FecalEncoder.cpp:129-230 | encoding is linear |
| `FecMatrix.OneLost` | source/nwm_misc/FecalEncoder.cpp:129-230 | a recovery byte together with all other input bytes determines a lost one if and only if the coefficient of its column is not zero |
| `FecEncoder.LaneParity` | source/nwm_misc/FecalEncoder.cpp:78-101 | the strided loop with deferred pairing and a short final column computes the plain lane sum |
| `FecEncoder.AddWeighted` | source/nwm_misc/FecalEncoder.cpp:103-122 | a column is added to the two weighted sums of its lane |
| `FecEncoder.Encoder.Initialize` | source/nwm_misc/FecalEncoder.cpp:47-127 | invalid parameters are refused; otherwise all lane sums are complete |
| `FecEncoder.Encoder.Encode` | source/nwm_misc/FecalEncoder.cpp:129-230 | every byte of a recovery symbol is the product of the row's coefficients and the zero-padded input bytes |

## Left out

- SenderRun.Enabled: a group is scheduled only while the groups in flight span less than the 12-bit id space; the source relies on this and does not check it.
- SenderReport.AtOrBeforeMeaning: assumes group numbers less than half the id space apart, as the bit test does.
- Nack.NackedIsMember: assumes sorted ranges in one id window, as the receiver sends them; without that the scan has the meaning of `Nacked`.
- SenderControl.Control: intrusive lists are sequences, so pointers into a list are positions; segments carry unbounded packet and group numbers, and all tests use their low 12 bits.
- SenderControl.Control.QueueSendCur: the loops over originals and recovery segments are unrolled for the two group types the table uses; the loop for one original with recovery segments is not reachable with that table. FEC encoding of the data is modelled in `FecEncoder`, not inside the step.
- SenderControl.Control.SendCur: the result of the datagram output is a parameter; send times and the notification of the last packet are left out.
- SenderControl.Control.Input: congestion control (floating point), session timing and the retry flag are left out; a datagram is its 16-bit words and whether a byte is left over.
- The session-opening packet in `ikcp_send_next`, `ikcp_reset_send_wak` (unused) and code behind `CHECK_PID` and `TIMING_INFO`.
- HuffmanTree.CodeLengths: the loop's arrays are sequences of fixed length; least total length is stated for the lengths before they are limited to 16 bits.
- HuffmanTable.GenOptimalTable: total frequency at most 10^9, the source's own marker for entries that are used up.
- BitWriter.Writer: the word has 32 bits, puts have at most 31; output is a sequence of bytes.
- WorkerDst.Dst: sending a packet always succeeds; the failure path resets all threads.
- WorkerDst.EncodeToPackets: one thread's part of a scan, with packets of at least 512 bytes; the order of blocks is a parameter.
- Quantizer.ComputeReciprocal: bit masks are written as comparisons and remainders.
- DeltaCodec.NoDrift: per coefficient, with shift tables that do not grow with the level and stay within 15; the tables themselves come from floating point.
- DeltaCodec.CacheFits: the condition under which the cached difference is right; -32768 is excluded as a DCT output.
- Dct.FdctIfast: its input is a block of samples less 128; fetching samples past the right edge and colour conversion are left out.
- The rate controller that chooses the level is not part of this model.
- Sampling.GenUniqueIndices: random numbers are parameters.
- LosslessEncoder.Encoder: one thread's rows of a screen; buffers and stored frames are sequences of rows, and bits are a sequence, which the bit writer would put out. Row widths are multiples of 30, as all screen widths are, and every component comes in the same number of groups.
- Plain lossless coding without frame differences is the prediction half of the same row coder; uncompressed copies are left out.
- SendPath.Step: one frame; the hand-over of frames between works, sleeping and the lossless header are left out. Sending a packet always succeeds, as it does in the source.
- Ring.Enabled: the callers keep at most `count` pointers on their way; a timeout leaves the caller where it is.
- Mempool.Pool: the words inside free blocks are an array of links; size checks of `mp_init` and code behind `CHECK` are left out.
- LogTables.InitMulDiv: table entries are bytes as eight bits; doubling with the modulus taken off stands for shift and exclusive or. The methods of `FecMemory` multiply by `Mul`, which `TablesAgree` proves to be the table.
- FecMemory.XorWord: a machine word is its bytes, changed one after another.
- FecMatrix.Row: the random column picks and the operation codes of a row are parameters; the generator and the hash that produce them are left out, as are SIMD branches.
- FecEncoder.Encoder: lane sums are sequences in a field; the output and the product are arrays changed in place.
- Hooks, menus, overlays, frame capture, sockets, thread creation and reset.
