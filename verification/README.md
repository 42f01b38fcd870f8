# Guests, hypervisors and page walks of cs695_assignment

A Dafny model of the repository's protocols and algorithms, with proofs of what they are for.
`dafny verify dfyconfig.toml` checks all of it. Every method mirrors code that changes things
step by step (guest memory as byte arrays, registers, list pointers, running sums) and is proved
against a function on values; the main results are lemmas about those functions, for all inputs.

| files | models | main results |
|---|---|---|
| `memory.dfy` | bytes, little-endian words, `memcpy` | round trips, frames |
| `ring_state.dfy`, `ring_protocol.dfy`, `ring_batches.dfy`, `ring_vm.dfy` | `emu4.c`, `guest4a.c`, `guest4b.c` | for every schedule and every `rdtsc`, the 20-slot ring in three copies prints exactly what one FIFO queue prints; what every turn prints, in terms of the stamps; the slot law; the reports, made from two snapshots, are exact; only the live window matters; either of the two copies per turn may go, not both |
| `lockstep.dfy`, `lockstep_log.dfy`, `lockstep_vm.dfy` | `emu1.c`, `emu2.c` and their `.s` guests, run by a small interpreter | for any two guest programs, bursts end as alternation does; for the repository's guests no unexpected exit ever occurs and what is consumed is what is produced, line by line; the mixed-width transfer is exact if and only if the page's upper half starts as zero |
| `bulk.dfy` | `emu3.c`, `guest3a.c`, `guest3b.c` | both printed logs are the counter modulo 2^32; only twenty bytes of either memory change |
| `paging.dfy`, `hypercalls.dfy`, `hypercalls_text.dfy`, `hypercalls_vm.dfy` | `simple-kvm.c`, `guest.c` | the walks of 32-bit and long mode are the identity on exactly 4 MB and 2 MB, and stay so over every run; so the handler's plain comparison answers as the guest's own walk does; counter accounting in both directions, also as read from the printed text |
| `pagewalk.dfy`, `pagewalk_modules.dfy` | `lkm3.c`, `lkm4.c`, `lkm5.c`, `get_memstats.c` | sums are cardinalities of page sets; lkm3 and lkm4 agree; lkm5 terminates if and only if the upper levels are populated, and then counts the huge PMDs |
| `family.dfy`, `family_order.dfy`, `reparent.dfy` | `chardev.c` | reparenting keeps every task in exactly its parent's list, keeps a forest if and only if no call targets the caller's own subtree, and EMERGENCY signals exactly the current children, the latest adopted first |

Assumptions, all written as preconditions or as construction: guest memory is 2 MB and starts
zeroed; the images of emu4's guests end below 0x400, those of simple-kvm's below 0x2000; the
areas of a process are page aligned, sorted and disjoint; a huge PMD that an area touches lies
inside it, is bad as a table, and a present PTE is not none; guest stores avoid the page tables.
Time stamps, the exits that a hypervisor ignores, and kernel tables are arbitrary functions.

Where code and documentation differ the model follows the code:

- `part1/README.md` says that HC_numExits counts all I/O exits. The handler counts each hypercall
  once, though three of the six leave the guest twice (`Hypercalls.EveryCallCountsOnce`).
- It also says the count grows by exactly one over HC_printStr. Two results of HC_numExits around
  one such call differ by two, since the second call counts itself (`Hypercalls.NumExitsDifference`).
- It says translation uses KVM_TRANSLATE. The code compares with the memory size and adds;
  `Hypercalls.GvaToHvaFollowsWalk` shows why that is right in all three modes. The answer 0 is
  ambiguous exactly when a 4 GB boundary of the host's addresses falls in guest memory
  (`Hypercalls.ZeroAmbiguous`).
- guest.c keeps two pointers from HC_numExitsByType and prints both. They are one address, so both
  print the later counts (`Hypercalls.LatestCountsPrinted`).
- The lkm5 loop does not advance over an empty upper-level entry, so it ends only for populated
  areas (`PageWalk.TerminatesIffPopulated`).

## Model

| member | source | states |
|---|---|---|
| Memory.Memcpy | 24m0832_assignment2/part2/emu4.c:198 | the bytes land at the address and no other byte changes |
| RingState.DecodeEncode | 24m0832_assignment2/part2/emu4.c:198-213 | copying the record into a guest and back gives the same record |
| RingState.EncodeDecode | 24m0832_assignment2/part2/emu4.c:213-234 | copying 92 guest bytes out and in again changes no byte |
| RingState.Layout | 24m0832_assignment2/part2/guest4a.c:4-12 | where each member of the record lies in guest memory |
| RingState.StoreMember | 24m0832_assignment2/part2/guest4a.c:48-50 | a guest's 4-byte store changes one member of the record and no other |
| RingState.SlotLawLive | 24m0832_assignment2/part2/emu4.c:228-232 | the slot law (pointers and count from the totals, item k in slot k mod 20) holds if and only if the record is well formed, cons_p is the consumed total mod 20, and the printed window is the unconsumed history |
| RingState.PutKeepsSlotLaw | 24m0832_assignment2/part2/guest4a.c:45-51 | one producer iteration keeps the slot law with the item added to the history |
| RingState.DropKeepsSlotLaw | 24m0832_assignment2/part2/guest4b.c:44-48 | one consumer iteration keeps the slot law with one more item consumed |
| RingState.PutAll | 24m0832_assignment2/part2/guest4a.c:45-51 | a whole batch appends exactly its items to the live window and leaves cons_p |
| RingState.DropMany | 24m0832_assignment2/part2/guest4b.c:44-48 | consuming k removes exactly the k oldest live items and leaves the slots and prod_p |
| RingProtocol.ReportProducedExact | 24m0832_assignment2/part2/emu4.c:214-225 | the line computed from two snapshots lists exactly the items the guest wrote, in order |
| RingProtocol.ReportConsumedExact | 24m0832_assignment2/part2/emu4.c:254-265 | the line computed from two snapshots lists exactly the oldest items, in order |
| RingProtocol.TurnRefinesFifo | 24m0832_assignment2/part2/emu4.c:196-275 | one turn prints what the queue system prints and keeps all three copies equal |
| RingProtocol.RunRefinesFifo | 24m0832_assignment2/part2/emu4.c:184-278 | for every schedule and all random choices the run prints what the unbounded queue prints, and ends coherent and standing for that queue |
| RingProtocol.FifoConserves | 24m0832_assignment2/part2/emu4.c:193-276 | for the queue: initial items and produced values are consumed values and the final queue, which is the last ring printed |
| RingProtocol.WholeRunFifo | 24m0832_assignment2/part2/emu4.c:193-276 | everything printed as produced is everything printed as consumed followed by the last HYPVSR list: no loss, duplication or reordering |
| RingProtocol.RunKeepsSlotLaw | 24m0832_assignment2/part2/emu4.c:193-276 | any run keeps the slot law in the hypervisor's and both guests' copies, the history growing by what is printed |
| RingProtocol.SlotLawAlways | 24m0832_assignment2/part2/emu4.c:188-276 | from the zeroed start the slot law holds after every schedule, the history being the printed log |
| RingProtocol.ConsumerPointer | 24m0832_assignment2/part2/guest4b.c:46 | over a run cons_p advances by the number of consumed items modulo 20 |
| RingProtocol.SameLiveSameOutput | 24m0832_assignment2/part2/emu4.c:218-272 | two runs that agree on the live items print the same for every schedule, whatever the dead slots hold |
| RingProtocol.RotateKeepsLive | 24m0832_assignment2/part2/emu4.c:228-232 | turning buffer and pointers by the same offset keeps the live items |
| RingProtocol.RotationInvisible | 24m0832_assignment2/part2/emu4.c:218-272 | a turned ring prints the same for every schedule |
| RingProtocol.CopyBeforeRedundant | 24m0832_assignment2/part2/emu4.c:198-238 | from a coherent start leaving out the copy before each turn changes no state and no output of any run |
| RingProtocol.CopyAfterRedundant | 24m0832_assignment2/part2/emu4.c:234-274 | leaving out the copy after each turn changes no output of any run |
| RingProtocol.ThirdTurnWithCopies | 24m0832_assignment2/part2/emu4.c:198-234 | with both copies the third turn of schedule 121 reports the one item made |
| RingProtocol.ThirdTurnWithoutCopies | 24m0832_assignment2/part2/emu4.c:198-234 | without either copy the same turn reports two items: one copy is needed |
| RingProtocol.ScheduleStutters | 24m0832_assignment2/part2/emu4.c:193-236 | a run depends only on the '1's and '2's of its schedule |
| RingProtocol.TotalsBounded | 24m0832_assignment2/part2/guest4a.c:41-44 | produced and consumed totals are at most ten per turn of that kind |
| RingProtocol.ProduceCount | 24m0832_assignment2/part2/guest4a.c:41-44 | a batch never exceeds what the stamp asks for nor the free space, and is shorter than asked only if it fills the ring |
| RingProtocol.ConsumeCount | 24m0832_assignment2/part2/guest4b.c:41-43 | the same for the consumer: shorter than asked only if it empties the ring |
| RingBatches.StampsRead | 24m0832_assignment2/part2/guest4a.c:40-47 | over any schedule the producer has read one stamp per turn and one per item, the consumer one per turn |
| RingBatches.ProducerBatch | 24m0832_assignment2/part2/emu4.c:196-235 | after any schedule, the two lines of a further '1' in terms of the stamps and of what was printed before: how many items, which, and the ring shown |
| RingBatches.ConsumerBatch | 24m0832_assignment2/part2/emu4.c:236-275 | the same for a further '2': the oldest items not yet consumed, as many as asked for or all |
| RingVm.Vm.constructor | 24m0832_assignment2/part2/emu4.c:338 | an image below 0x400 in zeroed memory leaves the record zero |
| RingVm.Vm.PutOne | 24m0832_assignment2/part2/guest4a.c:47-50 | the three stores in byte memory are one step of the record |
| RingVm.Vm.DropOne | 24m0832_assignment2/part2/guest4b.c:46-47 | the two stores in byte memory are one step of the record |
| RingVm.Vm.ProduceBatch | 24m0832_assignment2/part2/guest4a.c:40-51 | the loop in byte memory makes exactly the batch that its time stamps determine and touches only the record |
| RingVm.Vm.ConsumeBatch | 24m0832_assignment2/part2/guest4b.c:40-48 | the loop in byte memory drops exactly the batch that its time stamp determines and touches only the record |
| RingVm.Vm.Run | 24m0832_assignment2/part2/guest4a.c:36-53 | one KVM_RUN: an ignored exit, or the IN of port 0xF4 with nothing changed, or one batch and the OUT |
| RingVm.RunTurn | 24m0832_assignment2/part2/emu4.c:199-211 | the resume loop ends after exactly two port accesses and any number of ignored exits, with one batch done |
| RingVm.PrintWindow | 24m0832_assignment2/part2/emu4.c:216-232 | the printing loops list n slots from a start index, cyclically, and nothing for n <= 0 |
| RingVm.ProducerSlice | 24m0832_assignment2/part2/emu4.c:196-235 | a '1' in byte memories is the producer turn of the model and changes only the records |
| RingVm.ConsumerSlice | 24m0832_assignment2/part2/emu4.c:236-275 | a '2' in byte memories is the consumer turn of the model and changes only the records |
| RingVm.RunVm | 24m0832_assignment2/part2/emu4.c:184-278 | the whole loop prints the run of the model, conserves items, keeps the slot law, and changes of each memory only the record, which ends as the hypervisor's |
| Lockstep.ProducerMakes | 24m0832_assignment2/part2/guest2a.s:5-11 | from parked after n values the guest exits with OUT 0x10 and value n, and is parked again |
| Lockstep.ConsumerIn | 24m0832_assignment2/part2/guest2b.s:5-9 | from parked the first exit is the IN of port 0x11 |
| Lockstep.ConsumerOut | 24m0832_assignment2/part2/guest2b.s:9-11 | the OUT of port 0x12 leaves all four bytes as the hypervisor wrote them |
| Lockstep.ConsumerTakes | 24m0832_assignment2/part2/emu2.c:314-356 | one value handed over is printed unchanged as consumed, and the guest is parked again |
| Lockstep.ApartSplit | 24m0832_assignment2/part2/emu2.c:269-359 | running both machines apart for m + k values is running them for m and then for k |
| Lockstep.AlternationApart | 24m0832_assignment2/part2/emu1.c:268-335 | for any guest programs n alternating rounds succeed exactly if the machines run apart do, and have the same guests and lines |
| Lockstep.BurstsApart | 24m0832_assignment2/part2/emu2.c:269-359 | for any guest programs n bursts of k succeed without producer shutdown exactly if the machines run apart for k * n values do, and have the same guests and lines |
| Lockstep.DownEndsBurst | 24m0832_assignment2/part2/emu2.c:298-302 | a burst is cut short exactly when the producer's shutdown line is printed |
| Lockstep.BurstEqualsAlternation | 24m0832_assignment2/part2/emu2.c:269-359 | for any guest programs, n bursts of k and k * n alternating rounds both fail or end with the same guests and the same lines per machine |
| Lockstep.LockstepSafe | 24m0832_assignment2/part2/emu2.c:261-360 | from reset neither scheduler meets an unexpected exit; consumed values are the produced values in order; the guests end parked |
| Lockstep.InterleavingsDiffer | 24m0832_assignment2/part2/emu1.c:298-333 | the joint logs differ from the second line on, in every run |
| Lockstep.MixedWidthExact | 24m0832_assignment2/part2/emu2.c:287-289 | 4-byte reads of 2-byte outputs give n mod 65536 for all n if and only if the page's upper half starts zero |
| LockstepLog.AlternationPrints | 24m0832_assignment2/part2/emu1.c:268-335 | from reset, every line of n rounds in order: each value is consumed before the next is produced |
| LockstepLog.BurstsPrint | 24m0832_assignment2/part2/emu2.c:269-359 | from reset, every line of n bursts in order: three values produced, then the three consumed |
| LockstepLog.BurstOrder | 24m0832_assignment2/part2/emu2.c:273-357 | for any guest programs a burst prints all its lines about the producer before any about the consumer |
| LockstepLog.AlternationStops | 24m0832_assignment2/part2/emu1.c:287-297 | for any guest programs emu1 stops exactly at the producer's shutdown and fails exactly at an unexpected exit |
| LockstepLog.BurstsStop | 24m0832_assignment2/part2/emu2.c:291-307 | for any guest programs emu2 never stops at a shutdown and fails exactly at an unexpected exit |
| LockstepLog.BurstsConserve | 24m0832_assignment2/part2/emu2.c:269-359 | for any producer program all values printed as produced are consumed, once and in order, also those of a burst cut short by the producer's shutdown |
| LockstepVm.Vcpu.KvmRun | 24m0832_assignment2/part2/guest1a.s:5-11 | executing instruction by instruction reaches the exit and state that the interpreter defines, for every program |
| LockstepVm.RunProducer | 24m0832_assignment2/part2/emu1.c:269-297 | the producer's half of a round, with its error branches |
| LockstepVm.RunConsumer | 24m0832_assignment2/part2/emu1.c:299-333 | the loop over vm2_run_count for one value, with its error branches |
| LockstepVm.Emu1 | 24m0832_assignment2/part2/emu1.c:261-336 | the loop with registers and pages changed in place is the alternating scheduler, for every program; for the repository's guests the whole log |
| LockstepVm.RunBurst | 24m0832_assignment2/part2/emu2.c:272-310 | the producing loop fills shared_val with the burst's values, also when it is cut short |
| LockstepVm.RunDrain | 24m0832_assignment2/part2/emu2.c:312-357 | the consuming loop hands over exactly the values stored |
| LockstepVm.Emu2 | 24m0832_assignment2/part2/emu2.c:261-360 | the loop with registers, pages and shared_val changed in place is the burst scheduler, for every program; for the repository's guests the whole log |
| Bulk.ReportCounts | 24m0832_assignment2/part2/emu3.c:203-237 | over k rounds produced and consumed logs are both the counter from 0 to 5k modulo 2^32 |
| Bulk.CountAt | 24m0832_assignment2/part2/guest3a.c:19-25 | the i-th value of a batch is the counter plus i, modulo 2^32 |
| Bulk.PrintedAt | 24m0832_assignment2/part2/emu3.c:203-237 | the j-th value printed as produced, and the j-th printed as consumed, is j modulo 2^32 |
| Bulk.ReportAt | 24m0832_assignment2/part2/emu3.c:213-233 | every round prints its produced line and then its consumed line, with the same five values |
| Bulk.CountWraps | 24m0832_assignment2/part2/guest3a.c:19-25 | a batch depends on the counter modulo 2^32 only |
| Bulk.Vm.Fill | 24m0832_assignment2/part2/guest3a.c:22-25 | slot i holds the counter plus i modulo 2^32, and no byte outside the array changes |
| Bulk.Vm.Run | 24m0832_assignment2/part2/guest3a.c:14-28 | one KVM_RUN of either guest: an ignored exit, the registering OUT, or a round's OUT |
| Bulk.Register | 24m0832_assignment2/part2/emu3.c:175-202 | the registration loops end with the guest's own address and memory unchanged |
| Bulk.AwaitSignal | 24m0832_assignment2/part2/emu3.c:204-236 | the resume loops end behind the guest's signal with one round's work done |
| Bulk.PrintArray | 24m0832_assignment2/part2/emu3.c:214-232 | the printing loops show the five values of the array as signed ints |
| Bulk.RunVm | 24m0832_assignment2/part2/emu3.c:168-239 | every printed value of any number of rounds, and that of either memory only the registered twenty bytes change |
| Paging.BootTables | 24m0832_assignment2/part1/simple-kvm.c:497-518 | setup in zeroed memory followed by an image of at most 0x2000 bytes leaves the mode's tables in place |
| Paging.Walk32Identity | 24m0832_assignment2/part1/simple-kvm.c:419-432 | under 32-bit paging exactly the addresses below 4 MB translate, each to itself |
| Paging.Walk64Identity | 24m0832_assignment2/part1/simple-kvm.c:497-518 | of all 64-bit addresses exactly those below 2 MB translate in long mode, each to itself |
| Paging.BoundIsTranslation | 24m0832_assignment2/part1/simple-kvm.c:230-237 | in every mode the size comparison holds exactly of the addresses that the walk maps to memory |
| Paging.WriteKeepsTables | 24m0832_assignment2/part1/simple-kvm.c:265-266 | a write outside the tables keeps them |
| Paging.MarkKeepsTables | 24m0832_assignment2/part1/simple-kvm.c:508-510 | the processor's accessed and dirty bits keep the tables |
| Hypercalls.CountsTextShort | 24m0832_assignment2/part1/simple-kvm.c:263-264 | the formatted counters always fit the 128-byte buffer with their zero byte |
| Hypercalls.RunKeepsTables | 24m0832_assignment2/part1/simple-kvm.c:189-281 | the tables survive every run of hypercalls, permitted guest stores and accessed or dirty marks |
| Hypercalls.GvaToHvaFollowsWalk | 24m0832_assignment2/part1/simple-kvm.c:223-279 | at every point of every run from boot HC_gvaToHva returns the cut host address of what the guest's own walk finds, and 0 with the message exactly when that is no memory |
| Hypercalls.HvaInjective | 24m0832_assignment2/part1/simple-kvm.c:229-232 | cutting to 32 bits loses nothing over the 2 MB |
| Hypercalls.ZeroAmbiguous | 24m0832_assignment2/part1/simple-kvm.c:229-237 | a valid address is answered with 0 if and only if a 4 GB boundary falls in guest memory |
| Hypercalls.CallCounts | 24m0832_assignment2/part1/guest.c:9-75 | each hypercall adds one to the counters and one or two port accesses; HC_numExits returns the new count |
| Hypercalls.EveryCallCountsOnce | 24m0832_assignment2/part1/simple-kvm.c:189-281 | for every program of hypercalls the counters grow by the calls, port accesses exceed them by the two-exit calls |
| Hypercalls.CallDirection | 24m0832_assignment2/part1/simple-kvm.c:195-270 | which of the two direction counters each call raises |
| Hypercalls.DirectionsCounted | 24m0832_assignment2/part1/simple-kvm.c:195-270 | for every program the IN counter grows by the calls that ask for a count, the OUT counter by the other calls |
| Hypercalls.CallOutput | 24m0832_assignment2/part1/simple-kvm.c:195-237 | what each call prints, and that only HC_numExitsByType changes guest memory |
| Hypercalls.NumExitsDifference | 24m0832_assignment2/part1/simple-kvm.c:252-258 | two results of HC_numExits differ by the calls in between and one, modulo 2^32 |
| Hypercalls.CountsStringReadsBack | 24m0832_assignment2/part1/simple-kvm.c:259-270 | reading the C string at the returned address gives the formatted counters, this call included |
| Hypercalls.LatestCountsPrinted | 24m0832_assignment2/part1/guest.c:103-112 | printing through an old pointer shows the counters of the latest HC_numExitsByType |
| HypercallsText.CountsRead | 24m0832_assignment2/part1/simple-kvm.c:263-264 | a reader of the two lines gets back the two counters modulo 2^32 |
| HypercallsText.PrintedCounts | 24m0832_assignment2/part1/guest.c:103-112 | what a program prints through an old pointer, read back, is the numbers of IN and of OUT calls up to the latest HC_numExitsByType |
| HypercallsText.CountsWritten | 24m0832_assignment2/part1/simple-kvm.c:263-266 | the call changes 128 bytes at 0x100000 and no others, the buffer only up to the text's zero byte |
| HypercallsVm.SetUp | 24m0832_assignment2/part1/simple-kvm.c:497-518 | the table entries written in place |
| HypercallsVm.Machine.constructor | 24m0832_assignment2/part1/simple-kvm.c:552-555 | the machine at guest start: zeroed counters, tables, image |
| HypercallsVm.Machine.ReadString | 24m0832_assignment2/part1/simple-kvm.c:216-219 | the bytes up to the first zero byte |
| HypercallsVm.Machine.HandleOut | 24m0832_assignment2/part1/simple-kvm.c:195-250 | the OUT branches in place are the model's |
| HypercallsVm.Machine.HandleIn | 24m0832_assignment2/part1/simple-kvm.c:251-280 | the IN branches in place are the model's |
| HypercallsVm.Machine.Perform | 24m0832_assignment2/part1/guest.c:9-75 | each stub's port accesses in order |
| HypercallsVm.Machine.RunCalls | 24m0832_assignment2/part1/simple-kvm.c:176-290 | any sequence of calls in place is the model's program and counts each call once, in its direction |
| PageWalk.SizeIsPages | 24m0832_assignment1/1/lkm4.c:57-60 | the summed lengths are 4096 times the number of pages and stay below the last area's end |
| PageWalk.ListIsPages | 24m0832_assignment1/1/lkm4.c:57-118 | the pages with a property that the loops come to are as many as the set of such pages: none is met twice |
| PageWalk.PhysBits | 24m0832_assignment1/1/lkm3.c:99 | on 64-bit words the shift-or is a sum from which frame and offset are read back |
| PageWalk.Lkm3Agrees | 24m0832_assignment1/1/lkm3.c:36-99 | lkm3 succeeds exactly on nonzero addresses of pages that lkm4 counts, keeps the offset, gives the page's frame |
| PageWalk.Lkm3Outcome | 24m0832_assignment1/1/lkm3.c:36-99 | for every argument and process: when lkm3 succeeds, with what, and otherwise which error |
| PageWalk.Lkm4CountsLkm3 | 24m0832_assignment1/1/lkm4.c:57-118 | lkm4's count is the number of pages on which lkm3 succeeds, plus a resident page 0 |
| PageWalk.EmptyEntryIsFixed | 24m0832_assignment1/1/lkm5.c:57-80 | from a page with an empty upper entry the loop never moves again |
| PageWalk.SameBlockSameUpper | 24m0832_assignment1/1/lkm5.c:57-81 | all pages of a 2 MB block share their upper entries |
| PageWalk.StepToStop | 24m0832_assignment1/1/lkm5.c:81-90 | an advancing iteration covers one huge PMD or one small page, ends inside the area, and never lands inside a huge PMD |
| PageWalk.TerminatesIffPopulated | 24m0832_assignment1/1/lkm5.c:53-92 | the scan of an area terminates if and only if the upper levels are populated at its every page |
| PageWalkModules.ReportsIffPopulated | 24m0832_assignment1/1/lkm5.c:53-92 | with as many iterations as an area has pages, the scan comes through if and only if all areas are populated |
| PageWalk.StartsAreBlocks | 24m0832_assignment1/1/lkm5.c:82-86 | the aligned starts met are as many as the huge PMDs the process touches |
| PageWalk.ResidentPlusHuge | 24m0832_assignment1/1/lkm5.c:82-86 | resident and huge pages are disjoint, so the figures of lkm4 and lkm5 add up to at most the virtual size |
| PageWalkModules.AddressTests | 24m0832_assignment1/1/lkm4.c:62-95 | the tests made at an address are the tests of its page |
| PageWalkModules.WalkArea | 24m0832_assignment1/1/lkm4.c:61-117 | the walk over one area adds 4096 per resident page |
| PageWalkModules.WalkAreas | 24m0832_assignment1/3.2/get_memstats.c:69-101 | vm and pm are 4096 times the numbers of pages and of resident pages, pm <= vm, and nothing wraps |
| PageWalkModules.Lkm4 | 24m0832_assignment1/1/lkm4.c:37-123 | error cases, and that the KiB figures lose nothing |
| PageWalkModules.ConversionLoss | 24m0832_assignment1/3.2/get_memstats.c:29-35 | B and K lose nothing on whole pages, M less than 1 MB |
| PageWalkModules.MemStats.GetMemStats | 24m0832_assignment1/3.2/get_memstats.c:37-105 | both figures, cleared first even when it fails; error cases |
| PageWalkModules.MemStats.VmShow | 24m0832_assignment1/3.2/get_memstats.c:131-136 | the virtual size in the current unit, or -1 |
| PageWalkModules.MemStats.PmShow | 24m0832_assignment1/3.2/get_memstats.c:138-143 | the resident size in the current unit, or -1 |
| PageWalkModules.ScanArea | 24m0832_assignment1/1/lkm5.c:54-91 | the skipping loop finishes exactly when the iteration does, having met each aligned start of a huge PMD once, in order; its size is 4096 times the pages under them |
| PageWalkModules.Lkm5 | 24m0832_assignment1/1/lkm5.c:53-92 | when finished: the count of huge PMDs, 2 MB each, equal to 4096 times the huge pages, and all areas populated; otherwise some area's iteration is not through |
| PageWalkModules.Lkm5Init | 24m0832_assignment1/1/lkm5.c:33-96 | error cases; it reports exactly when the scan comes through, and then the KiB and count of the huge PMDs |
| Family.SetParentSound | 24m0832_assignment1/2.2/chardev.c:42-46 | SET_PARENT conserves tasks, keeps each in exactly its parent's list, puts the caller first, moves no other |
| Family.AcyclicStep | 24m0832_assignment1/2.2/chardev.c:29-51 | it keeps the parent links acyclic if and only if the target is not in the caller's own subtree |
| Family.ForestThroughout | 24m0832_assignment1/2.2/chardev.c:29-51 | over any sequence of calls the links stay acyclic throughout if and only if no call targets its caller's own subtree |
| Family.ParentIsLastTarget | 24m0832_assignment1/2.2/chardev.c:43-45 | a task's parent is the target of its last successful call, or its original parent |
| Family.EmergencySignals | 24m0832_assignment1/2.2/chardev.c:64-72 | EMERGENCY signals, before its target, each task whose last successful call named it and each original child that never moved, once |
| FamilyOrder.LatestFirst | 24m0832_assignment1/2.2/chardev.c:46-68 | every children list, and so the order of the signals, is sorted by the last successful calls, latest first, then the tasks that never moved |
| Reparent.ListDel | 24m0832_assignment1/2.2/chardev.c:42 | unlinking an entry leaves the other heads one circular list |
| Reparent.ListAdd | 24m0832_assignment1/2.2/chardev.c:46 | adding an entry puts it first on the circular list |
| Reparent.ListOwners | 24m0832_assignment1/2.2/chardev.c:64-68 | the loop visits the owners of all entries in list order |
| Reparent.Unlink | 24m0832_assignment1/2.2/chardev.c:42 | taking a task off its list leaves every task's list circular |
| Reparent.Link | 24m0832_assignment1/2.2/chardev.c:46 | putting it first on another leaves every task's list circular |
| Reparent.Kernel.Relink | 24m0832_assignment1/2.2/chardev.c:42-46 | the pointer operations between the locks move one list entry and both parent fields |
| Reparent.Kernel.Adopt | 24m0832_assignment1/2.2/chardev.c:40-49 | on the kernel's structures the move is the model's SET_PARENT and keeps their invariant |
| Reparent.Kernel.SetParentIoctl | 24m0832_assignment1/2.2/chardev.c:29-51 | SET_PARENT with its error cases, which change nothing |
| Reparent.Kernel.Emergency | 24m0832_assignment1/2.2/chardev.c:52-74 | EMERGENCY with its error cases; the signals in order |
| Reparent.Kernel.Ioctl | 24m0832_assignment1/2.2/chardev.c:24-79 | the dispatch, unknown commands included |

## Left out

- RingVm.RunVm: takes the schedule as a sequence of any length; the 100-byte buffer and `strlen` that bound it are not modelled, nor is KVM_RUN failing.
- LockstepVm.Emu1: the endless loop is stopped after a number of rounds; `sleep` and the repeated KVM_EXIT_IO lines are not recorded.
- LockstepVm.Emu2: as Emu1; a guest that shuts down stays shut down, which is KVM's affair.
- LockstepVm.Vcpu.KvmRun: programs whose loops contain no exit, on which KVM_RUN never returns, are excluded; the repository's guests have none.
- Bulk.RunVm: the endless loop is stopped after a number of rounds; the guests' code and stack are not modelled, only that nothing outside the arrays changes.
- Hypercalls.EveryCallCountsOnce: the int counters are unbounded here, since their overflow is undefined; results handed to the guest are taken modulo 2^32.
- HypercallsVm.Machine.ReadString: ends at the end of guest memory where the original, given no zero byte, would read on.
- PageWalkModules.Lkm5: watches each area for a number of iterations, since the original may never return.
- Family.SetParentSound: calls are atomic and tasks neither fork nor exit; the locks, RCU, signal delivery and the one-second pause are not part of this model.
- Reparent.Kernel.SetParentIoctl: a task that names itself is excluded, because the original then waits for its own lock.
- Set-up and tear-down of KVM, segment and control registers, the HLT checks at the end of simple-kvm's run, real mode: host plumbing.
- `emu.c` and the unused thread functions of emu1 and emu2: two printing threads with no protocol.
- lkm1, lkm2, ioctl_driver, get_pgfaults, the user programs, scripts and sysfs text parsing: only easy members.
- Reserved bits, protection keys and access rights in the page walks: the tables built here set none that matter.
