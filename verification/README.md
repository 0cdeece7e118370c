# DNT in Dafny

DNT is a userspace packet processor for IEEE 802.1CB (frame replication and elimination for reliability) and
DetNet. Streams are matched on their headers, and each matched packet runs through a pipeline of actions that was
compiled from one line of configuration: add, delete and edit headers, number packets, replicate them, eliminate
duplicates, restore order, delay, send.

This project models the parts of DNT that carry its guarantees and proves those guarantees for every input, every
run or every reachable state. `dafny verify dfyconfig.toml` checks it.

| files | what they model |
|---|---|
| `SeqRecovery`, `VectorRuns`, `SeqGenerator`, `SeamlessReset`, `SeamlessOrder`, `PathMasks` | sequence generation and recovery, sections 7.4.3.4 and 7.4.3.5 of IEEE 802.1CB-2017, the seamless reset added to them, and path masking |
| `Basics` | what several of them share |
| `Protocols`, `Actions`, `Compiler`, `StageStates`, `Simulation`, `StageMeaning`, `NextHeaders`, `WireChain` | the action compiler, what its output does to a packet's header list and to its bytes, and why they agree |
| `Bits`, `InetChecksum`, `PacketChecksum` | the Internet checksum (section 2 of RFC 1071) and its incremental update (section 3 of RFC 1624) |
| `FieldAccess`, `FieldConstants` | bit fields: writers, comparators, constants |
| `PacketLayout`, `PacketMemory`, `StreamMatch` | where headers lie, stream identification, the two ways onto the wire |
| `Notifications`, `NotificationReceivers` | fragmentation in C and reassembly in Python |
| `MessageQueues` | the queue between threads, as interleaved steps |
| `SortedQueues`, `PacketOrdering`, `Times`, `DelayQueues` | the packet ordering function (section 4.3 of RFC 9550), timestamps, the delay queue |
| `Replication` | who owns a packet while pipelines run and replicate it |

Code that updates state is a class or a loop here as well, proved equal to a specification function; the run
theorems are about those functions. Threads and timers inside a component are atomic steps, except in
`MessageQueues`. Integers are unbounded where the source's counters only count; 16- and 32-bit arithmetic is
written out where it decides the result. The host is taken to be little-endian.

## Where the code does not do what is promised

Each of these is a lemma with a concrete case or a whole failing family, next to the exact condition under which
the code does meet the property.

- The plain 16-bit additions in `csum_partial` drop their carry: six bytes give a wrong sum
  (`InetChecksum.LostCarryShows`). The sum is right if and only if neither the words before the first 4-byte boundary
  nor those after the last one overflow 32 bits (`InetChecksum.ExactWithoutLostCarries`).
- `TTLREDUCE` breaks a correct IPv4 checksum whose high byte is 255, and the automatic one, which is given no
  checksum field, breaks every checksum when it changes the TTL (`PacketChecksum.TtlReduceBreaks`, exact condition in
  `PacketChecksum.TtlReduceKeepsCorrect`).
- In an `add` stage only the left-hand sides are corrected for the insertion. A right-hand side is right if and only
  if its header lies before the insertion point (`Simulation.CompiledIsSound`, `Simulation.LateSourceIsWrong`).
- A timestamp less than two seconds old can be expanded two seconds wrong, because truncation to microseconds can
  move it out of the window (`Times.AlmostTwoSeconds`, exact condition in `Times.StampRoundTrip`).
- `messagequeue_pop` ignores the result of an unlimited wait. A wait interrupted by a signal takes an item without a
  token, after which another popper stands before an empty queue (`MessageQueues.TwoThreadsDisturbed`, from the start
  with two threads). With any number of threads a popper can come before an empty queue if and only if unlimited waits
  are interrupted (`MessageQueues.EmptyExactlyWhenInterrupted`).
- `get_next_deadline` returns the deadline of the highest number, not the earliest one, and a timeout then sends
  that packet first; order is kept if and only if it has the lowest number in the queue
  (`PacketOrdering.TimeoutInOrder`, `PacketOrdering.HighestGoesFirst`). With different numbers that is the case if and
  only if the mark was reset or all held packets have the same deadline (`PacketOrdering.InOrderExactly`).
- A silence with nothing held makes the ordering ready to take any number, but the first packet after it is sent at
  once if and only if its number is not beyond the expected one; otherwise it waits for its deadline
  (`PacketOrdering.SilenceTakesAny`).
- A receiver history shorter than the number of fragments lets a repeated transmission through as a second message
  (`NotificationReceivers.ShortHistoryRepeats`).
- A fragment id without a slash raises an error that `process_notification` does not catch, after the packet was
  remembered (`NotificationReceivers.NotificationReceiver.ProcessNotification`).
- `serialize_packet` does not look at the length. A packet that fills the receive space runs over the buffer once one
  tag is added (`StreamMatch.OneTagOverruns`). It fits if and only if what was received, with what was added and
  without what was deleted, does (`StreamMatch.SerializesExactly`).
- Three packets carry the reset flag, but the range in which the flag is ignored makes the reset depend on which packet
  arrives first: a recovery can be ready for packet 100 and refuse 101 when 100 is lost (`SeamlessReset.LostFirstFails`).
  For every start below 65536 and every first arrival, all schedules from there work if and only if the recovery is
  ready for that arrival (`SeamlessReset.SeamlessExactlyWhenReady`; failing schedules in `SeamlessReset.NotReadyFails`).
  For H below 16384 and a start at least H + 3 and more than 3 before the end, and with up to two of the flagged packets
  lost first, that is: the initial window takes any packet, or stands before the start, or at least 2H + 2 beyond it
  (`SeamlessReset.ReadyForLostFlags`). For H of at least 4 and a start at least 2H before the end, and with up to H - 1
  packets lost first, as at any other time, only a window that takes any packet or stands right before the start is ready
  (`SeamlessReset.ReadyForAnyLoss`).
- A generator that is reset a second time after k packets in order meets that range again: with the first packet of the
  new epoch arriving first, H below 16384 and room behind the start, the second reset works if and only if k is at least
  2H + 1 (`SeamlessOrder.SecondReset`, also with up to two flagged packets lost first).
- Late copies of packets sent before the reset are refused and disturb nothing if and only if none of them comes behind
  a new packet that makes the regular window take any packet (`SeamlessOrder.OldCopiesExactly`).
- A first arrival within the last H initial numbers leaves the regular window unprepared. That is harmless if and only
  if this window takes any packet, or stands right before 0, or H is at most 3, regular packets still carry the flag and
  the window does not stand on a number from 0 to 3H - 2 (`SeamlessReset.RegularReadyExactly`).
- A reset does not clear the history. When packets overtake each other, stale bits decide: for H below 16384 and any
  order within H, from any state, each packet is passed exactly once if and only if the first that comes to each window
  is let in and no later one meets a bit set before it or the window's lower end (`SeamlessOrder.AnyOrderExactly`). For
  the first two packets swapped, `SeamlessReset.OvertakenStart` gives the bits. From cleared windows any order within H
  is fine (`SeamlessReset.ReorderedRun`).
- `pipeline_process` neither runs nor frees a packet given to an empty pipeline (`Replication.NothingLost`); the
  compiler emits no such branch (`Simulation.StreamIsSound`).

## Model

| member | source | states |
|---|---|---|
| SeqRecovery.CalcDeltaIsDistance | seq_recov.c:229-235 | the signed 16-bit difference of two numbers is their true distance whenever that is below half the number space |
| SeqRecovery.AdvancedAt | seq_recov.c:209-227 | position i of the history after an advance by delta holds the mark that stood delta places before, zeros for the skipped numbers and a mark for the new one |
| SeqRecovery.SequenceRecovery.ShiftArray | seq_recov.c:224-226 | the array shift in place is the shift of the sequence |
| SeqRecovery.SequenceRecovery.ShiftSeqHistory | seq_recov.c:209-227 | one shift of the history array and its loss accounting |
| SeqRecovery.SequenceRecovery.RecoverPacket | seq_recov.c:237-292 | window, counters and verdict after a packet, on either window |
| SeqRecovery.SequenceRecovery.VectorSeqRecovery | seq_recov.c:325-329 | the new state of both windows, the counters and the verdict of the vector algorithm; the initial window is untouched |
| SeqRecovery.SequenceRecovery.SeamlessSeqRecovery | seq_recov.c:331-363 | the flags of the word choose the window and may make it take any packet; whole new state and verdict |
| SeqRecovery.SequenceRecovery.MatchSeqRecovery | seq_recov.c:294-323 | whole new state and verdict of the match algorithm, which needs no history |
| SeqRecovery.SequenceRecovery.Reset | seq_recov.c:365-425 | the windows afterwards, for each of the three algorithms: match only takes any packet next, vector and seamless also forget |
| SeqRecovery.ResetTakesAny | seq_recov.c:365-425 | whatever number comes first after a reset is passed, by each of the three algorithms |
| SeqRecovery.SequenceRecovery.Tick | seq_recov.c:516-565 | the countdown; when it ends, the whole reset, or for the recovery of an OAM session the end of the session |
| SeqRecovery.SequenceRecovery.LatentErrorReset | seq_recov.c:508-514 | the guard is set, the reset is counted, and the latent-error difference is zero for the present number of paths |
| VectorRuns.WindowStep | seq_recov.c:237-292 | a packet is passed if and only if its absolute number lies in the window and was not accepted, and the history then shows exactly the accepted numbers again |
| VectorRuns.HistoryIsExact | seq_recov.c:209-292 | over every run of packets, ticks and resets, history[i] is set if and only if base - i was accepted since the last reset |
| VectorRuns.Drive | seq_recov.c:209-565 | the object, driven by any packets, ticks and latent-error resets, has the window and the counters of the runs that the other rows speak of, and passes the same packets |
| VectorRuns.ResetForgets | seq_recov.c:365-425 | after a reset no number counts as accepted |
| VectorRuns.TimerExact | seq_recov.c:516-565 | over every run the timer shows what is left of the time since the last passed packet (or any packet, where set so), and a reset comes with exactly the tick that completes it |
| VectorRuns.NoResetInTime | seq_recov.c:516-565 | no reset while packets pass in time |
| VectorRuns.OddPacketsCounted | seq_recov.c:237-292 | over every run: rogue packets are those refused outside the window, packets out of order are those passed that were neither the first nor the next expected |
| VectorRuns.LongestLoss | seq_recov.c:209-227 | while no guard is left, the loss counters hold the run of losses at the end and the longest run |
| VectorRuns.GuardAbsorbs | seq_recov.c:209-227 | the guard takes as many losses as it allows, all further ones are counted |
| VectorRuns.NoDuplicatePasses | seq_recov.c:237-292 | over every run no absolute number passes twice between resets; a 16-bit number passes again only after the base moved by more than 65536 - 2H; a number in the window is refused only if it passed before |
| VectorRuns.UnseenIsPassed | seq_recov.c:253-291 | after every run any number within H of the base that was not accepted is passed |
| VectorRuns.LossIsAccounted | seq_recov.c:209-291 | passed + counted lost + guard slots used = base advance + marks in the history, and passed + discarded = packets, over every run |
| VectorRuns.MatchRemovesRepeats | seq_recov.c:294-323 | the match algorithm's output is the stream with each run of equal numbers reduced to one |
| VectorRuns.MatchCounted | seq_recov.c:294-323 | passed, discarded and out-of-order packets of the match algorithm, from its output |
| VectorRuns.MatchTimer | seq_recov.c:294-323 | its timer starts anew exactly when a packet passes, or with any packet where set so |
| VectorRuns.SeamlessCounted | seq_recov.c:331-363 | over every run of the seamless algorithm each packet is counted as passed or discarded, whichever window judged it, and the timer starts anew likewise |
| SeqGenerator.SequenceGenerator.Reset | seq_gen.c:78-88 | after a reset the output starts again from the initial space |
| SeqGenerator.SequenceGenerator.Generate | seq_gen.c:103-135 | the k-th word since the reset: flags and number in closed form, through the switch to regular numbers and every wrap |
| SeqGenerator.FlagsOnlyAsAsked | seq_gen.c:103-135 | a flag that is not to be used is never set, and the first three words carry the reset flag where it is |
| SeqGenerator.FirstNumber | seq_gen.c:103-135 | the first number after a reset is the configured one cut to 16 bits, or 0 |
| SeamlessReset.SeamlessRun | seq_recov.c:331-363 | generator after reset, for every start below 65536 and whichever packet arrives first, into a recovery that is ready for it, with later losses of up to H - 1 in a row and copies less than H late: every packet is passed exactly once, across the switch and all wraps |
| SeamlessReset.SeamlessExactlyWhenReady | seq_recov.c:331-363 | for every start below 65536 and every first arrival, initial or regular, that holds for all schedules from there if and only if the recovery is ready for that arrival: its window takes any packet, or the number is at most H ahead, or it is flagged and outside the ignore range, or the window stands beyond the initial numbers that are left with none of them marked; and the regular window is ready if the first arrival is within H of the end |
| SeamlessReset.LostFirstFails | seq_recov.c:331-363 | a recovery that is ready for the first flagged packet and refuses the second when the first is lost |
| SeamlessReset.ReadyForLostFlags | seq_recov.c:331-363 | with room behind the start: ready for each of the first one, two or three packets if and only if the window takes any packet, stands before the start, or at least 2H, 2H + 1 or 2H + 2 beyond it |
| SeamlessReset.ReadyForAnyLoss | seq_recov.c:331-363 | with a history of at least 4 and 2H numbers behind the start: ready for each of the first H packets if and only if the window takes any packet or stands right before the start |
| SeamlessReset.RegularReadyExactly | seq_recov.c:331-363 | when the regular window is ready, in terms of where it stands |
| SeamlessReset.RegularNotReadyFails | seq_recov.c:345-351 | a schedule that fails, for every first arrival within H of the end and every regular window that is not ready |
| SeamlessReset.NotReadyFails | seq_recov.c:337-343 | a schedule that begins with the given arrival and fails, for every recovery that is not ready for it |
| SeamlessReset.MarkedIsKept | seq_recov.c:237-363 | every step keeps the shape of the windows which that equivalence assumes |
| SeamlessReset.OvertakenStart | seq_recov.c:331-363 | in every state, with a history of at least 2 and both packets in the initial space, the first two packets swapped are both passed if and only if the bits that they meet are clear |
| SeamlessReset.ReorderedRun | seq_recov.c:331-363 | from cleared windows, every start and every arrival order within H, with losses and copies: every packet is passed exactly once |
| SeamlessOrder.AnyOrderExactly | seq_recov.c:331-363 | for H below 16384, from every state, every start, every first arrival and every order within H after it, with losses and copies: every packet is passed exactly once if and only if neither window meets its packets with stale bits |
| SeamlessOrder.TwoWindows | seq_recov.c:331-363 | the two windows decide independently, each on its own packets, the regular one prepared if an initial packet lies in the band before the switch |
| SeamlessOrder.SecondReset | seq_recov.c:331-363 | for H below 16384 and room behind the start, a reset after k packets of the same epoch in order, with start + j (j up to 2) arriving first, works for all schedules if and only if k <= j or k >= 2H + 1 + j |
| SeamlessOrder.OldCopiesExactly | seq_recov.c:331-363 | late copies of regular packets that the window shows, mixed with initial packets of the new epoch: all refused, and every new packet passed exactly once, if and only if the new packets alone are and no copy comes behind a packet of that band |
| SeamlessOrder.FlagOnlyExactly | seq_recov.c:356-362 | with the reset flag but no initial space, for H below 16384: every packet is passed exactly once if and only if the one window meets its packets without stale bits |
| SeamlessOrder.PlainWithoutFlag | seq_recov.c:331-363 | without the reset flag the algorithm is the vector algorithm |
| SeamlessOrder.WorksAfterTimer | seq_recov.c:365-425 | after the timer's reset every start and every order within H works |
| PathMasks.RecoveryPaths.PathMasked | seq_recov.c:609-652 | new path count, input table and signals after a mask call, when it is refused, and the latent-error reset it makes |
| PathMasks.RecoveryPaths.PathUnmasked | seq_recov.c:654-697 | the same for an unmask call |
| PathMasks.PathsAreConserved | seq_recov.c:609-697 | after every sequence of calls: working paths + masked inputs = configured count, signals alternate from start, and, where paths are configured, one is outstanding if and only if no path is left |
| PathMasks.CallsSucceed | seq_recov.c:609-697 | the upper bound in unmask never refuses; which calls succeed, exactly |
| InetChecksum.CsumPartialLoop | inet_utils.c:166-233 | the loop, for every byte string, alignment and initial sum, is the recursive form, including how many carries it dropped |
| InetChecksum.PartialIsWordSum | inet_utils.c:166-233 | result + dropped carries = initial sum + 16-bit word sum modulo 65535, at every alignment |
| InetChecksum.ExactWithoutLostCarries | inet_utils.c:166-233 | the result is the word sum modulo 65535 if and only if neither head nor tail overflows, as told from the data |
| InetChecksum.LostCarriesShow | inet_utils.c:166-233 | carries are dropped if and only if head or tail overflows |
| InetChecksum.AlignedIsSafe | inet_utils.c:166-233 | whole 32-bit words at a 4-byte boundary never drop a carry |
| InetChecksum.FewWraps | inet_utils.c:166-233 | at most five carries are dropped in one call |
| InetChecksum.LostCarryShows | inet_utils.c:166-233 | six bytes whose sum depends on their address |
| InetChecksum.AlignmentDoesNotMatter | inet_utils.c:158-233 | without dropped carries the folded checksum does not depend on the address |
| InetChecksum.FoldIsOnesComplement | inet_utils.c:158-164 | two folding steps give a 16-bit number congruent to the sum, zero only for zero |
| PacketChecksum.HeaderSum | checksum.c:37-107 | the sums over header, payload split and pseudo header, for each protocol |
| PacketChecksum.ChecksumCompute | checksum.c:109-154 | the buffer afterwards: field cleared, sum taken, field filled, all else unchanged |
| PacketChecksum.ChecksumVerify | checksum.c:156-180 | the verdict, and the error counted at the receiving interface, if there is one |
| PacketChecksum.ComputeThenVerify | checksum.c:15-180 | where the sum covers the checksum field, apart from the other bytes it reads: verify after compute holds if and only if both sums dropped equally many carries and the second is not zero; always when none was dropped |
| PacketChecksum.TtlReduce | action.c:829-850 | TTL, metadata and adjusted checksum after the action, all other bytes unchanged |
| PacketChecksum.TtlReduceKeepsCorrect | action.c:829-867 | a correct IPv4 header stays correct if and only if the TTL was nonzero and the checksum's high byte was not 255; without adjustment if and only if the TTL was zero |
| PacketChecksum.TtlReduceBreaks | action.c:829-867 | a correct header with TTL 1 that the reduction makes wrong |
| PacketChecksum.FieldIsSummedExactly | checksum.c:15-107 | in every packet with headers in place, the sum covers the field if and only if the summed length reaches it |
| PacketChecksum.PlacedFits | checksum.c:15-107 | in every such packet with whole headers, all bytes that a checksum above IP touches lie in the buffer |
| PacketChecksum.BehindIPv4 | checksum.c:15-107 | it does for UDP, TCP and ICMP right behind a 20-byte IPv4 header whose length field covers them |
| PacketChecksum.PacketRoundTrip | checksum.c:15-180 | in every such packet, if computing the checksum drops no carry, as told from the data chunk by chunk, then verifying it succeeds if and only if that drops none either |
| PacketChecksum.VerifyIsCorrect | checksum.c:156-180 | for every protocol: a packet whose reference sum is correct is accepted, and an accepted one is correct, if and only if no carry is dropped, as told from the data |
| PacketChecksum.IPv4Total | checksum.c:37-43 | for an IPv4 header that reference is the word sum of its bytes |
| PacketChecksum.SumsTheCovered | checksum.c:37-107 | for every protocol over both IP versions, with even lengths before the last header: what is summed, chunk by chunk, is the word sum of one string: addresses, length and protocol number by their places in the packet, and the message cut to that length |
| PacketChecksum.LengthIsCarried | checksum.c:15-35 | right behind the IP header, that length is what the IP header says it carries |
| PacketChecksum.VerifyIsDefinition | checksum.c:156-180 | the verdict is that of this definition if and only if no carry is dropped |
| PacketChecksum.AddressCounts | checksum.c:77-99 | for TCP, UDP and ICMPv6: an accepted packet is refused once a byte of an address differs, while no carry is dropped |
| PacketChecksum.TtlDoesNotCount | checksum.c:77-99 | the verdict above IP does not depend on TTL or hop limit |
| FieldAccess.WriteField | header.c:26-113 | whichever writer is selected, exactly the field's bits become the value's bits |
| FieldAccess.WriteGeneric | header.c:54-85 | the generic writer does so for every offset and width |
| FieldAccess.CompareField | header.c:144-235 | whichever comparator is selected, true if and only if all bits of field and value agree |
| FieldAccess.CompareGeneric | header.c:172-209 | the generic comparator does so for every offset and width |
| FieldConstants.HighestSetBit | conf_utils.c:115-120 | the position of the highest set bit, 0 for zero |
| FieldConstants.PrepareConstantNumber | conf_utils.c:122-153 | fails if and only if the number does not fit; otherwise its bits, right aligned at the field's offset |
| FieldConstants.ConstantReadsBack | conf_utils.c:122-153 | a constant written to a field reads back as the big-endian number |
| FieldConstants.ZeroSuffix | conf_utils.c:183-198 | exactly the bits after the prefix are cleared |
| PacketLayout.AddKeepsPlaced | packet.c:171-197 | adding keeps headers in bounds and disjoint |
| PacketLayout.DelKeepsPlaced | packet.c:199-211 | so does deleting |
| PacketLayout.RunRefinesList | packet.c:136-211 | every run of adds, deletes and byte edits acts on the list of header strings as insert, remove and update |
| PacketLayout.ImageIsFlat | packet.c:107-129 | the wire image is those strings one after the other |
| PacketMemory.Packet.Identify | packet.c:136-158 | the header table after entering a header, and when it is refused |
| PacketMemory.Packet.Add | packet.c:160-197 | table and scratch space after an insertion in place, and when it is refused |
| PacketMemory.Packet.Del | packet.c:199-211 | the table after a removal in place |
| PacketMemory.Packet.Length | packet.c:97-105 | the length of the wire image |
| PacketMemory.CopyPacket | packet.c:80-95 | a fresh packet with the same layout and the same used bytes |
| PacketMemory.CopyHasSameImage | packet.c:80-95 | the copied part of the buffer holds every header, so the copy has the same header strings |
| PacketMemory.Serialize | packet.c:107-129 | a linear packet whose bytes are the wire image, or an overrun if and only if the image is longer than the receive space |
| PacketLayout.RunLength | packet.c:97-105 | over every run of adds, deletes and edits the image grows by what was added less what was deleted |
| StreamMatch.SerializesExactly | packet.c:107-129 | a received packet, after every such run, fits the receive space if and only if the received length plus that growth does |
| StreamMatch.OneTagOverruns | packet.c:107-129 | a received packet that overruns with one tag added |
| PacketMemory.MergeIovecs | if_utils.c:280-299 | the merged output vector gathers exactly the wire image |
| StreamMatch.MatchHeader | parsetree.c:164-173 | true if and only if every configured match of the header holds |
| StreamMatch.IdentifyStream | parsetree.c:175-224 | the first stream in order that fits and matches, whatever failed before it; its headers and the payload are entered, or nothing |
| StreamMatch.IdentifiedTiles | parsetree.c:175-224 | the headers entered tile the received bytes |
| StreamMatch.IdentifiedRefines | parsetree.c:175-224 | a received and identified packet is valid, and every later run of adds, deletes and edits acts on the list of its header strings |
| Compiler.FindIsUnique | conf_actions.c:702-711 | a name is resolved if and only if exactly one header bears it |
| Compiler.LastIp | conf_actions.c:779-798 | the IP header of a layer 4 checksum is the last one before it |
| StageStates.ReverseList | utils.h:20-30 | the loop that turns a list round, here onto a new sequence |
| StageStates.AssembleEdit | conf_actions.c:1557-1637 | the assignment list built at the front and turned round is: default bytes, new header, previous header, the user's |
| StageStates.ReadUser | conf_actions.c:727-752 | the user's assignments, with the left sides corrected once the position is known |
| StageStates.StageState.ProcessAdd | conf_actions.c:1480-1648 | an add stage fails exactly when the specification does; otherwise new header list, flags and emitted actions |
| StageStates.StageState.ProcessDel | conf_actions.c:1655-1749 | the same for delete, whose filter and edit end up before it |
| StageStates.StageState.ProcessEdit | conf_actions.c:1764-1771 | the same for edit |
| StageStates.StageState.ProcessField | conf_actions.c:1877-1988 | the same for actions on a field, with the IP header or the payload they also need |
| StageStates.StageState.ProcessPlain | conf_actions.c:1869-1941 | the same for numbering, ordering, TTL check and send, which is preceded by a pending check |
| StageStates.StageState.ProcessJump | conf_actions.c:1802-1849 | a jump is replaced by the target's actions, or fails |
| StageStates.StageState.ProcessRepl | conf_actions.c:1012-1053 | each branch is compiled on a copy of the headers, in order, or the stage fails |
| StageStates.StageState.ProcessStage | conf_actions.c:1993-2022 | nothing is accepted after a final stage |
| StageStates.StageState.ForEachStages | conf_utils.c:22-40 | the loop over stages computes the compiled pipeline, or fails where that fails |
| StageStates.ParseActionsLine | conf_actions.c:2024-2092 | the state machine as a whole computes the compiled stream in forward order |
| Simulation.IndexAfterInsert | conf_actions.c:1516-1530 | an index taken before an insertion is right after it if and only if it lies before the insertion point |
| Simulation.AddSound | conf_actions.c:1480-1648 | the actions of an add stage name the headers they mean and leave the packet as the compiler's list says |
| Simulation.DelSound | conf_actions.c:1655-1749 | so do those of a delete stage |
| Simulation.CompiledIsSound | conf_actions.c:1466-2022 | for every pipeline, through inlined jumps and in every branch: each index names the header it was compiled for, if and only if add stages take right-hand sides from before the insertion; without those, always |
| Simulation.StreamIsSound | conf_actions.c:2024-2092 | the same for a whole stream; sequence number and TTL are there before use, a new tag is numbered or stamped at once, OAM is filtered before a sequence tag is deleted, the TTL of the first header is checked before a send, no jump is left, drop and replicate end their path, no branch is empty |
| StageMeaning.CompiledObeys | conf_actions.c:1466-2022 | for every pipeline, through inlined jumps and in every branch, on every packet that shows its headers: the actions fall into the parts of the stages, and each part does what its stage says in terms of names. An add puts its header directly behind or in front of the one named, numbers it and writes it; a delete removes the one named; an edit and a field action touch the one named, with the values, the IP header or the payload they need |
| StageMeaning.StreamObeys | conf_actions.c:2024-2092 | the same for a whole stream from the names it declares |
| StageMeaning.AcceptedExactly | conf_actions.c:1466-1988 | a stage that is not final is accepted if and only if each header it names is there exactly once and has the field, new neighbours can name each other, and sequence number and TTL are there before use |
| StageMeaning.CompilesExactly | conf_actions.c:1993-2022 | a pipeline compiles if and only if all its stages are accepted, nothing follows a final one, and every target is defined, not empty and nested at most 11 deep |
| StageMeaning.SendChecks | conf_actions.c:1910-1941 | a send is preceded by a TTL check exactly while one is pending |
| StageMeaning.DeleteCancels | conf_actions.c:1655-1749 | deleting the header whose TTL was to be checked cancels the check, deleting another does not |
| Protocols.NumbersNameProtocols | protocol.c:22-140 | the tables from protocols to numbers and back are inverse, except that three kinds of tag share one number |
| Simulation.LateSourceIsWrong | conf_actions.c:746-748 | a stream that compiles to a wrong index |
| Simulation.CirclesAreRefused | conf_actions.c:1012-1015 | pipelines that jump or replicate in a circle are refused from every state |
| Simulation.PacketFollowsList | packet.c:171-211 | over a whole list of actions the packet's own header table has the types of the list used in the simulation, as long as every add finds room |
| Simulation.PlacedExactly | packet.c:160-197 | for a sound list every add finds room if and only if there are fewer than 20 headers before it and what was added so far with the new header ends below the packet's start |
| Simulation.IdentifiedTracks | parsetree.c:175-224 | an identified packet shows the declared headers with the payload last, as the simulation assumes |
| NextHeaders.AddKeepsChain | conf_actions.c:1557-1637 | an add without user override keeps every header naming the next, and the payload's code |
| NextHeaders.OverrideWins | conf_actions.c:1583-1638 | a next-header value set by the user is written last and stays |
| NextHeaders.DelKeepsChain | conf_actions.c:1714-1748 | so does a delete, because the edit comes first |
| NextHeaders.StageKeepsChain | conf_actions.c:1131-1207 | and every other stage |
| NextHeaders.SendsAreLinked | conf_actions.c:1466-1749 | from a whole chain, and where no stage writes a next-header field itself: at every send and replication of every path of every pipeline the chain is whole and the payload's code is the original one |
| WireChain.AssignShown | header.c:26-113 | an assignment carried out on the packet's bits, constant, copied field or default bytes, changes the next-header fields of the bytes as the header list says, and no other header's |
| WireChain.StepShown | action.c:120-942 | so does every action: after an add, a delete, an edit or a write of a checksum, sequence number, timestamp, TTL or length the header list's next-header values are those in the bytes |
| WireChain.AddIsStep | packet.c:171-197 | adding a header to a packet with headers in place is the add step, with a next-header field that begins with what the scratch space held |
| WireChain.DelIsStep | packet.c:199-211 | deleting one is the delete step |
| WireChain.NewFieldIsZero | packet.c:160-197 | that is 0 where the unused scratch space is zero |
| WireChain.ChecksumIsStep | action.c:140-146 | computing a checksum is a step that writes its field only |
| WireChain.TtlIsStep | action.c:829-850 | so is reducing the TTL of an IPv4 header |
| WireChain.SentPacketsAreLinked | conf_actions.c:1466-1749 | under the same conditions, in every run over bytes, also through replicas, each header of a packet that is sent names the type of the header behind it in its own next-header field, and the last one says of the payload what the last header of the original packet said |
| Notifications.SendNotification | notification.c:85-149 | one packet without a fragment id if length plus quotes is at most 1200, otherwise the fragments, each with its number and the number of all |
| Notifications.CutFragment | notification.c:129-138 | how far one fragment reaches |
| Notifications.FragmentsRoundTrip | notification.c:103-149 | for every message: the fragments concatenate to it, the announced count suffices, each is at most 1200 long and 1201 with its quotes |
| NotificationReceivers.NotificationReceiver.ProcessNotification | json_receiver/notification_receiver.py:15-48 | whole new state and result of one packet: one that is not JSON or lacks a field changes nothing, any other is remembered, also with bad content or a bad fragment id; an id without a slash raises an error |
| NotificationReceivers.NotificationReceiver.HandleMultipart | json_receiver/notification_receiver.py:66-110 | the collector's new state and the joined message |
| NotificationReceivers.ExactlyOneResult | json_receiver/notification_receiver.py:15-110 | any order, any duplicates, no more fragments than the history holds: one result when all fragments came, none otherwise |
| NotificationReceivers.NotificationRoundTrip | notification.c:103-149 | the result is the message that was sent |
| NotificationReceivers.EveryMessageOnce | notification.c:85-149 | for every message, short or long, that parses: the sender's packets, in any order and any number, delivered to a receiver that is fresh to them and remembers that many, give the message once when all came, and nothing otherwise |
| NotificationReceivers.OnceOnly | json_receiver/notification_receiver.py:15-48 | whatever is wrong with a packet it is remembered, and the same packet again changes and says nothing; it raises exactly when new and without a slash in its fragment id |
| NotificationReceivers.ShortHistoryRepeats | json_receiver/notification_receiver.py:59-60 | with more fragments than the history holds, sending them twice gives two results |
| MessageQueues.RunKeeps | thread_utils.c:169-287 | under every interleaving: semaphore + tokens held = items + 1 while a pusher is between post and enqueue + unpaid takes; at most one thread inside; popped then queued is what was pushed |
| MessageQueues.TakenInOrder | thread_utils.c:169-210 | what was taken is a prefix of what was enqueued |
| MessageQueues.DeliveredInOrder | thread_utils.c:169-210 | under every interleaving: what the pop calls return, in order, then what a popper about to leave has, then what is queued, is what the push calls were given, in the order in which they enqueued |
| MessageQueues.NothingExactly | thread_utils.c:186-206 | a call that came as far as the queue returns nothing if and only if the queue was empty |
| MessageQueues.TryGivesUpExactly | thread_utils.c:212-230 | a call that does not wait gives up if and only if there is no token |
| MessageQueues.NeverEmpty | thread_utils.c:196-210 | without an interrupted unlimited wait a popper about to take always finds an item |
| MessageQueues.TokenFindsItem | thread_utils.c:196-210 | a popper with a token finds nothing only if some item was taken without one |
| MessageQueues.InterruptedWaitEmpties | thread_utils.c:282-286 | from every state with one item and two idle threads an interrupted wait leads to a popper before an empty queue |
| MessageQueues.TwoThreadsDisturbed | thread_utils.c:282-286 | such a run from the start |
| MessageQueues.EmptyExactlyWhenInterrupted | thread_utils.c:196-287 | with one thread or more, some run brings a popper before an empty queue if and only if unlimited waits are interrupted |
| SortedQueues.InsertSorts | pof.c:162-175 | insertion keeps the queue sorted and puts a packet before those with the same number |
| PacketOrdering.Pof.Insert | pof.c:147-193 | the queue after an insertion, when the packet is dropped or passed on, and when the worker is told |
| PacketOrdering.Pof.PopItem | pof.c:195-218 | exactly that packet is removed |
| PacketOrdering.Pof.TryForward | pof.c:263-292 | queue, mark, flag and output of a whole call, with and without timeout |
| PacketOrdering.Pof.GetNextDeadline | pof.c:236-251 | the deadline of the last packet in the queue, and the packet chosen for a timeout |
| PacketOrdering.Pof.Reset | pof.c:220-234 | everything held is dropped, the mark stays |
| PacketOrdering.Pof.Expire | pof.c:331-346 | the worker's step after a deadline or a silence |
| PacketOrdering.DrainSends | pof.c:276-291 | a call loses and repeats nothing, skips no number and leaves only numbers beyond the expected one |
| PacketOrdering.TimeoutSends | pof.c:263-292 | with a timeout only the first packet sent may skip |
| PacketOrdering.TimeoutInOrder | pof.c:266-273 | a timeout sends in order if and only if it starts with the lowest number held |
| PacketOrdering.HighestGoesFirst | pof.c:236-273 | with distinct numbers and deadlines it starts with the highest |
| PacketOrdering.InOrderExactly | pof.c:236-292 | with distinct numbers a timeout sends in order if and only if the mark was reset or all deadlines in the queue are equal |
| PacketOrdering.SilenceTakesAny | pof.c:331-346 | state after a silence with nothing held, and what becomes of the first packet after it, for every number |
| PacketOrdering.RunConserves | pof.c:147-342 | over every run: the queue is sorted, and held packets plus output are the packets that found room |
| PacketOrdering.OutputInOrder | pof.c:147-292 | without timeouts, numbers different and above the mark, in any order: the output is mark + 1, mark + 2, and so on |
| Times.TimesAreNumbers | time_utils.h:19-41 | addition, subtraction and comparison are those of the number line |
| Times.DiffIsClose | time_utils.h:103-109 | the difference in microseconds is off by less than one, to either side |
| Times.ExpandedIsRecent | time_utils.h:76-98 | an expanded timestamp is the one time in the last two seconds with its phase |
| Times.StampRoundTrip | time_utils.h:76-98 | it is the stamped time in microseconds if and only if that lies in the last two seconds |
| Times.AlmostTwoSeconds | time_utils.h:84-98 | a time less than two seconds old that comes back wrong |
| DelayQueues.DeadlineIsEntryPlusDelay | delay.c:61-71 | the deadline is entry time plus delay, under exactly that condition |
| DelayQueues.DelayQueue.Push | delay.c:61-104 | the queue after a push, for every stamp |
| DelayQueues.DelayQueue.SendFirst | delay.c:106-123 | the first is sent, and nothing held is due before it |
| DelayQueues.DelayQueue.Flush | delay.c:173-180 | everything is sent in order and the queue is empty |
| DelayQueues.RunConserves | delay.c:61-123 | over every run the queue is sorted and pushed = sent + held |
| DelayQueues.FlushSendsAll | delay.c:173-180 | after a flush everything ever pushed has been sent |
| DelayQueues.NewestFirst | delay.c:79-97 | of equal deadlines the newest goes first |
| Replication.Runner.RunIterator | pipeline.c:114-134 | the iterator loop, from any position, is the recursive run |
| Replication.Runner.ReplExecute | action.c:625-669 | the branch loop with its remembered OAM test is the recursive replication |
| Replication.RunSends | action.c:625-669 | for every tree of pipelines and masks: the images sent are those of a run in which every branch has a value of its own |
| Replication.RunSettles | pipeline.c:65-134 | the packet and every copy of it is freed, handed over or lost, exactly once |
| Replication.RunHands | pipeline.c:65-134 | a packet is handed over for every hold that is reached, and for nothing else |
| Replication.RunIsSane | pipeline.c:65-134 | over every run what was handed over or lost is in memory, and what was freed is not |
| Replication.NothingLost | pipeline.c:65-75 | none is lost if and only if no empty pipeline and no empty replication is reached |

## Left out

- Tokenising of the configuration, field names and widths, interface properties: stages are given parsed, and a right-hand side is a literal or a header's field.
- OAM actions, address search, automatic maintenance points and the list of fields that must be written: many branches, weak properties.
- `delay` stages and their offload flag, `:masked` definitions: only easy checks.
- The base length of `setlength`; its header indices are modelled.
- The `notification_session` stream, whose packet has the payload as its only header and declares it (`conf_streams.c:104-120`): `Simulation.StreamIsSound` is about streams that are identified.
- Linked lists (compiler lists, queues, message queue) are sequences held in fields: node identity and freeing of nodes are not captured.
- In `MessageQueues` the queue itself is a sequence; the loop that walks to its end is not.
- Latent-error thresholds, diagnostics, notifications and statistics.
- Numbers in the ordering function that wrap around; the accumulation of event values.
- An initial number of 65536 or more in the seamless reset theorems; `SeqGenerator` gives the generator's output for it.
- The 28 bits in which an IPv6 header keeps a sequence number; that it is read and written there is modelled.
- In `WireChain` the bytes that an action on a field may write are listed from the protocol table; only checksum and IPv4 TTL writes are tied to their code.
- A header of odd length before another one in `PacketChecksum.SumsTheCovered`: no protocol has one (`PacketChecksum.ProtocolsAreEven`).
- Histories of 16384 and more in `SeamlessOrder`: twice the window then no longer fits half the number space.
- A value source that overlaps the field it is written to: writers take the value as it was before the write.
- Intermediate headers between IP and layer 4 in the payload length.
- Time of day, randomness and the JSON text itself: parameters, or taken as given.
- Interface drivers, sockets, command line, logging, the hash map and parsers: I/O and plumbing.
- The shared dummy buffer used beyond the packet limit, and packet logging.
