# A verified model of the virtual machine monitor

This project models the modular virtual machine monitor under `src/`: an interpreter with paged
memory and a TLB, three schedulers, the hypervisor loop, the migration packet and its protocol, and
the text snapshot file. It also models the coursework's two live-migration programs. It proves what
holds over whole runs of these parts together.

Each stateful component is a class whose methods update its fields in place. Each method is proved
equal to a function on values, and the theorems are about those functions. The value of a VM does not
contain the TLB, so every theorem about VMs also says that the TLB is invisible.

| file | contents |
|---|---|
| `Words.dfy`, `Bits.dfy` | 32-bit wrap-around, truncating division, little-endian bytes, bit operations, and what they mean bit by bit |
| `Memory.dfy`, `FlatStore.dfy` | page table, TLB, faults, and the flat byte store that paged memory refines |
| `Machine.dfy`, `Instructions.dfy` | instructions, slices, solo runs, the `VirtualMachine` class, and what each instruction does |
| `Schedulers.dfy`, `Fairness.dfy` | round robin, priority, feedback queues; bounded waiting, evenness, order |
| `Serializer.dfy`, `Migration.dfy` | packet, checksum, transport, retry protocol, pre-copy, counters |
| `System.dfy`, `Core.dfy` | the loop as a transition system, and the `HypervisorCore` class that runs it |
| `Termination.dfy`, `PriorityRuns.dfy`, `Histories.dfy`, `Transfers.dfy` | when runs and VMs end, in which order and how evenly turns are given, what migrations do |
| `Checkpoint.dfy` | moving a VM through a packet |
| `Decimals.dfy`, `TextSnapshot.dfy` | decimal text and the snapshot file |
| `Legacy.dfy`, `LegacyArithmetic.dfy` | the coursework's migration and instructions |
| `Demo.dfy` | the programs of `src/main.cpp` and `tests/test_main.cpp`, followed through the model |

Modelling choices:

- `size_t` quantities are unbounded where the code only counts with them, and 8 bytes wide in the packet.
  Words are little-endian.
- Register indices are 0 to 31; the code does not check them.
- Signed 32-bit arithmetic wraps. Where C++ leaves signed overflow undefined this is the usual machine
  behaviour; the quotient of the smallest integer by -1 is taken to wrap as well.
- `std::string` is a sequence of bytes.
- A transport is any function from the calls made so far to the next answer. The legacy network is any
  function from the instruction count to whether the connection succeeds.
- `IScheduler` is a sum of the three scheduler classes in place of a virtual base class.
- `HypervisorCore.Run` has to terminate in Dafny, so it requires that the loop ends at all;
  `Termination.RunEndsIff` gives the exact condition to check. The body of the loop (`TakeTurn`) and any
  number of turns of it (`RunTurns`) have no such requirement, and the lemmas about `Iterations` cover
  runs that never end.

Where the code and what one expects of it differ, the code is kept and the exact condition is proved:

- The packet and the text file do not carry the page table. A VM restored from a fresh snapshot continues
  as the original if and only if it comes to no load or store on a page the original had mapped
  (`Checkpoint.FreshReceiverIff`, `FreshReceiverByPacket`, `FreshReceiverByText`). One load is enough to
  fail it (`Checkpoint.FreshReceiverFaults`).
- A name or a memory of 2^32 bytes or more does not survive the packet, whose length fields have 32 bits
  (`Serializer.RoundTripIffFits`, `Serializer.HugeNameIsLost`).
- A name with a newline does not survive the text file (`TextSnapshot.TextRoundTripIff`).
- A word that straddles two pages is stored in adjacent physical bytes, whatever frame the second page has
  (`Memory.FlatIffContiguous`, `Memory.StraddlingWordTears`).
- A VM at a MIGRATE stays there: the instruction does not advance and the hypervisor only clears the
  intent. The loop then never ends (`Termination.RunEndsIff`), and a receiver that restores the packet sits
  on the same MIGRATE in every slice (`Transfers.MigratedVmIsStuck`).
- Under priority scheduling a live VM gets done if and only if it can be picked and neither it nor any live
  VM the scan prefers to it is stuck (`PriorityRuns.PriorityDoneIff`). A VM at a MIGRATE starves one that only
  has to HALT (`PriorityRuns.MigrateStarvesHalt`).
- A snapshot file whose second line is no number is loaded without an error, with pc 0 and no memory
  (`TextSnapshot.LoadsAnyFile`).
- The server takes a legacy program file name that holds a space for another name, and reads the rest of
  the message as sent (`Legacy.MessageReadsBack`).
- The legacy client counts instructions but the server skips file lines, so blank lines before MIGRATE make
  the server run some lines twice (`Legacy.SafeLayoutIff`).

## Model

| member | source | states |
|---|---|---|
| Memory.VirtualMemory.constructor | src/memory/virtual_memory.cpp:7-12 | builds a zeroed buffer with an identity page table over the rounded-up page count, and an empty TLB |
| Memory.VirtualMemory.MapPage | src/memory/virtual_memory.cpp:14-17 | changes one mapping and keeps the TLB coherent |
| Memory.VirtualMemory.TranslateCached | src/memory/virtual_memory.cpp:19-41 | answers and faults as a memory without TLB, whatever the TLB holds, and keeps the TLB coherent |
| Memory.VirtualMemory.ReadWord | src/memory/virtual_memory.cpp:43-50 | reads what a memory without TLB reads; only the TLB may change |
| Memory.VirtualMemory.WriteWord | src/memory/virtual_memory.cpp:52-59 | writes what a memory without TLB writes; a faulting write changes nothing |
| Memory.VirtualMemory.RestorePageTable | src/memory/virtual_memory.cpp:61-64 | replaces the page table and leaves no stale TLB entry |
| Memory.Serve | src/memory/virtual_memory.cpp:14-64 | over any sequence of reads, writes, mappings and table replacements, every word, every fault and the final contents are those of a memory without TLB |
| Memory.FaultClassification | src/memory/virtual_memory.cpp:7-41 | for every size and after any run of reads and writes, exactly which addresses are granted, page-fault, or are out of range |
| Memory.SizeDecidesFaultsIff | src/memory/virtual_memory.cpp:7-12 | the size in bytes alone decides every access iff the page count was not cut to 32 bits or still covers the address space |
| Memory.WriteIsFlat | src/memory/virtual_memory.cpp:52-59 | with distinct frames, a contiguous write changes exactly its four bytes of the flat store |
| Memory.ReadIsFlat | src/memory/virtual_memory.cpp:43-50 | a contiguous read returns the four flat bytes at its address |
| Memory.ReadOverWrite | src/memory/virtual_memory.cpp:43-59 | a write reads back and leaves every read of a non-overlapping word unchanged |
| Memory.BuiltMemoryIsFlat | src/memory/virtual_memory.cpp:7-12 | with the constructor's page table every granted access is contiguous, straddling ones included |
| Memory.FlatIffContiguous | src/memory/virtual_memory.cpp:35-36 | all words land at their own four addresses iff the word lies in one page or in two adjacent frames |
| Memory.StraddlingWordTears | src/memory/virtual_memory.cpp:52-59 | a concrete page table and address for which a write lands in a third page |
| Bits.WordBytesAre | src/memory/virtual_memory.cpp:52-59 | a word is stored as its four bytes, least significant first |
| Bits.BytesWordIs | src/memory/virtual_memory.cpp:43-50 | four bytes in memory stand for their little-endian sum, read in two's complement |
| FlatStore.NewMemoryReadsZero | src/memory/virtual_memory.cpp:7-12 | every word a new memory grants is zero, whatever its size |
| FlatStore.MemoryIsFlat | src/memory/virtual_memory.cpp:43-59 | after any run of reads and writes each byte is that of the last write that covers it, or zero; bytes beyond the size are unbacked |
| FlatStore.AnswersAreFlat | src/memory/virtual_memory.cpp:43-59 | in any such run every read in range returns those bytes, every write in range succeeds, and everything else is refused |
| FlatStore.RemappingMovesPages | src/memory/virtual_memory.cpp:14-64 | a mapping moves one page and a table replacement every page; the bytes stay |
| Machine.VirtualMachine.constructor | src/vm/virtual_machine.cpp:7-8 | builds a ready VM with zero registers over fresh memory |
| Machine.VirtualMachine.ExecuteOne | src/vm/virtual_machine.cpp:13-75 | executes one instruction as the value model does, through the TLB |
| Machine.VirtualMachine.RunForSlice | src/vm/virtual_machine.cpp:77-96 | runs a slice as the value model does: the same state and the same retired count |
| Machine.VirtualMachine.Snapshot | src/vm/virtual_machine.cpp:98-105 | copies name, cpu, page table and bytes, and changes nothing |
| Machine.VirtualMachine.Restore | src/vm/virtual_machine.cpp:107-112 | installs cpu, bytes and page table and makes the VM ready; fault, intent and program stay |
| Machine.ArithmeticExactIff | src/vm/virtual_machine.cpp:15-29 | under the wrap-around choice above, after a slice of li, add, addi, sub and mul a register holds what unbounded arithmetic computes iff that fits in 32 bits |
| Instructions.FaultsIff | src/vm/virtual_machine.cpp:13-75 | which instructions fault, and with which fault, read off opcode, divisor, page table and memory size; nothing else changes then |
| Instructions.RetiresIff | src/vm/virtual_machine.cpp:13-75 | which instructions retire; then pc moves by one and fault and intent stay |
| Instructions.StopsIff | src/vm/virtual_machine.cpp:60-67 | HALT alone halts, MIGRATE alone blocks and leaves its own target as the intent |
| Instructions.QuietInstructions | src/vm/virtual_machine.cpp:54-59 | a dump and a snapshot only move pc |
| Instructions.LoadImmediate | src/vm/virtual_machine.cpp:15-17 | li writes its immediate to rd alone |
| Instructions.RetiringDivision | src/vm/virtual_machine.cpp:30-38 | div writes hi and lo alone: they recombine to the dividend, hi smaller than the divisor and with the dividend's sign |
| Instructions.RetiringStore | src/vm/virtual_machine.cpp:48-53 | sw writes its register to its own four flat bytes and changes no other byte and no register |
| Instructions.RetiringLoad | src/vm/virtual_machine.cpp:39-47 | lw gives rd the four flat bytes at its address and changes nothing else |
| Machine.StoreThenLoad | src/vm/virtual_machine.cpp:39-53 | sw followed by lw of the same address moves the register, for any contiguous address |
| Machine.SliceSplit | src/vm/virtual_machine.cpp:77-96 | from every state, a slice of a then one of b >= 1 equals a slice of a + b, in state and retired count |
| Machine.SliceSplitZero | src/vm/virtual_machine.cpp:81-94 | with b = 0 this fails exactly when the first slice blocks |
| Machine.SoloAfterSlice | src/vm/virtual_machine.cpp:77-96 | running any slice first changes neither the solo result nor the total retired |
| Machine.SoloBlocksIff | src/vm/virtual_machine.cpp:60-63 | the solo run of a live VM ends blocked iff it comes to a MIGRATE, and done otherwise |
| Demo.TestProgramRuns | tests/test_main.cpp:60-66 | one slice of 10 of the program of that function leaves 123 in register 2 |
| Demo.MemoryTests | tests/test_main.cpp:14-30 | 99 written to address 0 is read back, and address 8192 of 4096 bytes is a page fault |
| Demo.SchedulerTest | tests/test_main.cpp:32-41 | the three schedulers pick 0, 1 and 0 of two ready VMs with priorities 1 and 10 |
| Demo.DemoSystem | src/main.cpp:43-66 | under every policy the system of main ends after exactly five turns, with 42 in both VMs, four instructions recorded for each, two and three dispatches, and nothing sent |
| Schedulers.RoundRobinScheduler.PickNext | src/scheduler/round_robin_scheduler.cpp:5-18 | returns the first live VM at or after the cursor and moves the cursor past it |
| Schedulers.PriorityScheduler.PickNext | src/scheduler/priority_scheduler.cpp:5-18 | returns the index of the maximum scan |
| Schedulers.BestIsFirst | src/scheduler/priority_scheduler.cpp:8-17 | the scan's result is the first eligible VM by priority descending, index ascending, or index 0 if none is eligible |
| Schedulers.LoneVmIff | src/scheduler/priority_scheduler.cpp:6-17 | the only live VM is picked iff its priority is above -1000000 or it is the first |
| Schedulers.MlfqScheduler.RebuildQueues | src/scheduler/mlfq_scheduler.cpp:5-13 | puts every VM in the high queue in order and empties the others |
| Schedulers.MlfqScheduler.PickFromQueue | src/scheduler/mlfq_scheduler.cpp:24-33 | pops the dead VMs in front and then the first live one, or empties the queue |
| Schedulers.MlfqScheduler.PickNext | src/scheduler/mlfq_scheduler.cpp:19-52 | picks and requeues as the value model does |
| Schedulers.IScheduler.PickNext | include/scheduler/scheduler.hpp:11-16 | dispatches to the policy of the scheduler object |
| Fairness.MlfqLevels | src/scheduler/mlfq_scheduler.cpp:35-51 | with dead VMs filtered out, a pick moves the head of the first non-empty level to the end of the next one and changes no other order |
| Fairness.FairPick | src/scheduler/mlfq_scheduler.cpp:19-52 | a pick of round robin or the feedback queues is live, keeps the queues sound (none lost, none queued twice), and lowers the rank of every other live VM |
| Fairness.NoLiveVm | src/scheduler/mlfq_scheduler.cpp:49-52 | with no live VM every policy answers 0; round robin keeps its cursor, the feedback queues start over |
| Fairness.BoundedWaiting | src/scheduler/mlfq_scheduler.cpp:19-52 | in any run a VM that stays live is picked within 3(n-1)+1 calls of the feedback queues, n calls of round robin |
| Fairness.RoundRobinEven | src/scheduler/round_robin_scheduler.cpp:5-18 | at every point of a run the turns of two VMs live so far differ by at most one |
| Fairness.MlfqEven | src/scheduler/mlfq_scheduler.cpp:19-52 | at every point of a run of a new scheduler the turns of two VMs live so far differ by at most three, the earlier index leading |
| Fairness.MlfqThreeApart | src/scheduler/mlfq_scheduler.cpp:19-52 | three is reached, by two VMs that stay live for seven picks |
| Fairness.PriorityBlocks | src/scheduler/priority_scheduler.cpp:5-18 | in a run a VM picked before an eligible pick is the same VM, or comes before it in the order and is done by then |
| Fairness.PriorityContiguous | src/scheduler/priority_scheduler.cpp:5-18 | between two picks of the same eligible VM every pick is that VM |
| Serializer.ComputeChecksum | src/migration/state_serializer.cpp:69-76 | the loop computes the FNV-1a fold |
| Serializer.OneByteChangesChecksum | src/migration/state_serializer.cpp:69-76 | payloads that differ in exactly one byte have different checksums |
| Serializer.ChecksumStep | src/migration/state_serializer.cpp:69-76 | the hash starts at 2166136261, and each byte is combined by exclusive or, bit by bit, before the multiplication by 16777619 |
| Serializer.Serialize | src/migration/state_serializer.cpp:23-40 | builds the version-1 packet with its checksum, whose payload has each field and each register at its own position |
| Serializer.Deserialize | src/migration/state_serializer.cpp:42-67 | rejects by version, then by checksum; otherwise returns the snapshot that stands in the payload position by position, page table untouched |
| Serializer.PayloadLaidOut | src/migration/state_serializer.cpp:23-40 | the payload is name length, name, pc, hi, lo, registers 0 to 31, memory size, memory, at fixed offsets, and nothing more |
| Serializer.DecodesIffLaidOut | src/migration/state_serializer.cpp:42-67 | a payload starts with the encoding of a snapshot iff the fields stand at those offsets |
| Serializer.DecodesUnique | src/migration/state_serializer.cpp:23-67 | the encoding is prefix-free: a payload starts with the encoding of at most one snapshot |
| Serializer.PacketRoundTrip | src/migration/state_serializer.cpp:23-67 | what is read from the sender's packet has the sender's name, cpu and memory |
| Serializer.RoundTripIffFits | src/migration/state_serializer.cpp:26-35 | a packet that reads back at all is faithful iff name and memory are shorter than 2^32 bytes |
| Serializer.HugeNameIsLost | src/migration/state_serializer.cpp:26-35 | a name of 2^32 zero bytes is a sender whose packet reads back with an empty name |
| Serializer.PayloadWellSized | src/migration/state_serializer.cpp:23-67 | the receiver never reads past a payload the sender built |
| Serializer.ReserializeSamePacket | src/migration/state_serializer.cpp:23-67 | re-serializing what was read from an exactly sized genuine packet gives the same packet |
| Serializer.CorruptPacketRejected | src/migration/state_serializer.cpp:47-50 | a genuine packet with one payload byte altered is not genuine, so it is rejected |
| Migration.SendWithRetry | src/migration/migration_protocol.cpp:5-18 | makes the calls of the delivery model and reports its error |
| Migration.DeliveryDiscipline | src/migration/migration_protocol.cpp:5-18 | against any transport: one handshake, at most three sends and only after a successful one, stopping at the first success; success is reported iff the last call was a successful send |
| Migration.ThreeTries | src/migration/migration_protocol.cpp:11-17 | a greeted target gets the packet iff one of three tries in a row succeeds, the third included, and nothing is asked after that one |
| Migration.PreCopyMigrate | src/migration/migration_service.cpp:5-16 | runs both rounds, then delivers the packet of the state they leave |
| Migration.PreCopyRunsTwenty | src/migration/migration_service.cpp:8-10 | the VM that is sent has run on by twenty instructions |
| Metrics.MetricsTracer.RecordDispatch | src/metrics/metrics_tracer.cpp:5-5 | adds one to the name's dispatch count and changes nothing else |
| Metrics.MetricsTracer.RecordInstructions | src/metrics/metrics_tracer.cpp:7-9 | adds the count to the name's instructions and changes nothing else |
| System.DispatchIsSlice | src/hypervisor/hypervisor_core.cpp:37-47 | at every migration from the loop the VM is blocked, both pre-copy rounds leave it unchanged, and the dispatch is the slice with the intent cleared |
| System.DispatchMigratesIff | src/hypervisor/hypervisor_core.cpp:40-43 | a dispatch uses the transport iff its slice ends at a MIGRATE, and then first greets the target that instruction names |
| System.TurnTouchesOne | src/hypervisor/hypervisor_core.cpp:29-47 | a turn changes no VM but the live one it picks |
| System.Isolation | src/hypervisor/hypervisor_core.cpp:12-49 | whatever the policy, the transport and the other VMs, a VM that is done has exactly the state of its solo run |
| System.SchedulerIndependence | src/hypervisor/hypervisor_core.cpp:12-49 | two runs over the same VMs that both end agree on every VM, whatever their policies and transports |
| System.WireCarriesSolo | src/hypervisor/hypervisor_core.cpp:40-46 | every packet a run sends is the packet of some VM's stuck solo state |
| System.ReceiverGetsSolo | src/hypervisor/hypervisor_core.cpp:40-46 | whoever decodes such a packet gets that VM's name, and the cpu and memory of its solo run |
| Transfers.TransportUsedIff | src/hypervisor/hypervisor_core.cpp:40-46 | under round robin and the feedback queues a run uses the transport at some point iff a live VM with a positive slice comes to a MIGRATE |
| Transfers.TerminatingRunIsQuiet | src/hypervisor/hypervisor_core.cpp:40-46 | under every policy, a run that can end never uses the transport |
| Transfers.MigratedVmIsStuck | src/vm/virtual_machine.cpp:60-112 | whoever restores a packet sent in a run into a VM with the same program retires nothing in any slice and asks for the same migration again |
| Termination.DispatchCounts | src/hypervisor/hypervisor_core.cpp:37-39 | a dispatch brings a VM that finishes exactly one dispatch closer, by the closed form floor(L/s)+1 or max(1, ceil(L/s)) |
| Termination.ExactTurns | src/hypervisor/hypervisor_core.cpp:12-49 | a terminating system is done after k turns iff k is at least the total of dispatches needed, under every policy |
| Termination.RunEndsIff | src/hypervisor/hypervisor_core.cpp:12-49 | the loop ends iff every VM is done, or can be picked and has nothing left, or a positive slice and no MIGRATE ahead |
| Termination.FreshRun | src/hypervisor/hypervisor_core.cpp:7-49 | the same from a fresh set-up, where every VM then ends in its solo state |
| Termination.InstructionsConserved | src/hypervisor/hypervisor_core.cpp:38-39 | in any run, migrations included, the instructions recorded for a name are how far its VMs' program counters moved |
| Termination.DispatchesConserved | src/hypervisor/hypervisor_core.cpp:37-37 | dispatches recorded for a name plus those its VMs still need are constant |
| Termination.ExactDispatchCount | src/hypervisor/hypervisor_core.cpp:37-37 | when the loop has ended a uniquely named VM has been dispatched exactly as often as its solo length and slice prescribe |
| Termination.ExactInstructionCount | src/hypervisor/hypervisor_core.cpp:38-39 | and has retired exactly its solo length |
| Termination.NoStarvation | src/hypervisor/hypervisor_core.cpp:12-49 | under round robin and the feedback queues a VM that finishes reaches its solo state within a bounded number of turns, even if others are stuck at a MIGRATE |
| Termination.PriorityStarves | src/hypervisor/hypervisor_core.cpp:12-49 | under priority, a stuck VM keeps every VM after it in the order from ever being picked: its state never changes, and a unique name gains no dispatches |
| PriorityRuns.PriorityDoneIff | src/hypervisor/hypervisor_core.cpp:12-49 | under priority, a VM ever gets done iff it is done already, or can be picked and neither it nor any live VM the scan prefers to it is stuck |
| PriorityRuns.ExactPriorityTurns | src/hypervisor/hypervisor_core.cpp:12-49 | and then it is done, in its solo state, after k turns iff k is at least the dispatches it and the VMs the scan prefers to it need |
| PriorityRuns.MigrateStarvesHalt | src/hypervisor/hypervisor_core.cpp:12-49 | a VM at a MIGRATE with priority 2 keeps a VM with priority 1 that only has to HALT from ever being picked |
| Histories.TurnsArePicks | src/hypervisor/hypervisor_core.cpp:29-29 | the turns of the hypervisor are the picks of its policy on the run's status vectors |
| Histories.PicksAreTallied | src/hypervisor/hypervisor_core.cpp:29-37 | the dispatches recorded for a live, uniquely named VM are exactly the turns that picked it |
| Histories.DispatchesEven | src/hypervisor/hypervisor_core.cpp:12-49 | round-robin evenness of the hypervisor's own turns and of the recorded dispatches |
| Histories.DispatchesNearlyEven | src/hypervisor/hypervisor_core.cpp:12-49 | the same for the feedback queues, with a lead of at most three |
| Histories.DispatchesInOrder | src/hypervisor/hypervisor_core.cpp:12-49 | priority turns follow the order priority descending, index ascending, and pass on to another VM only when the one before is done |
| Histories.DispatchesContiguous | src/hypervisor/hypervisor_core.cpp:12-49 | and the turns of each VM form one contiguous block |
| Core.HypervisorCore.AddVm | src/hypervisor/hypervisor_core.cpp:10-10 | appends one VM and changes nothing else |
| Core.HypervisorCore.Survey | src/hypervisor/hypervisor_core.cpp:14-25 | collects statuses and priorities and decides whether every VM is done |
| Core.HypervisorCore.TakeTurn | src/hypervisor/hypervisor_core.cpp:14-47 | one turn of the loop is one transition of the whole state: VMs, scheduler, counters, transport |
| Core.HypervisorCore.RunTurns | src/hypervisor/hypervisor_core.cpp:12-49 | the first turns of the loop of any system, ending or not, are that many transitions, cut short only when every VM is done |
| Core.HypervisorCore.Run | src/hypervisor/hypervisor_core.cpp:12-49 | whenever the loop ends at all, it ends at the first state with every VM done; from VMs with nothing pending after exactly the dispatches needed, with every VM in its solo state |
| Checkpoint.CoherentSlice | src/vm/virtual_machine.cpp:77-96 | running keeps a VM coherent: a done VM sits on the instruction that ended it |
| Checkpoint.SnapshotRestores | src/vm/virtual_machine.cpp:98-112 | a VM restored from a snapshot taken in memory runs on exactly as the original, page table included, whatever the receiver was doing; only a fault on record stays until it faults itself |
| Checkpoint.CheckpointTransparent | src/vm/virtual_machine.cpp:98-112 | run k, snapshot, serialize, deserialize, restore into a fresh VM, run m >= 1: the same machine as running k + m in place, if the receiver has the sender's page table |
| Checkpoint.FreshReceiverIff | src/vm/virtual_machine.cpp:107-112 | with an empty page table this holds iff no load or store on a page mapped at the sender comes up; otherwise the receiver ends in a page fault |
| Checkpoint.FreshReceiverByPacket | src/migration/state_serializer.cpp:42-67 | the same for a snapshot read from the sender's packet |
| Checkpoint.FreshReceiverByText | src/snapshot/snapshot_service.cpp:27-47 | the same for a snapshot loaded from the text file, if the name has no newline |
| Checkpoint.FreshReceiverFaults | src/vm/virtual_machine.cpp:107-112 | a one-page VM about to run lw $0, 0 is one for which it fails: it halts at the sender and page-faults at the receiver |
| TextSnapshot.Save | src/snapshot/snapshot_service.cpp:7-25 | writes the text of the snapshot, or fails if the file does not open |
| TextSnapshot.Load | src/snapshot/snapshot_service.cpp:27-47 | makes of any text what the stream operators make of it, malformed text included |
| TextSnapshot.TextRoundTripIff | src/snapshot/snapshot_service.cpp:13-45 | loading what was saved restores name, cpu and memory iff the name has no newline, and keeps the loader's page table |
| Decimals.DecimalForm | src/snapshot/snapshot_service.cpp:14-22 | a number is written without plus sign or leading zeros |
| TextSnapshot.SavedWords | src/snapshot/snapshot_service.cpp:13-23 | after the name line the text is, word by word, pc, hi, lo, the registers in order, the memory size and the bytes |
| Decimals.ExtractAnyNumber | src/snapshot/snapshot_service.cpp:34-43 | any whole number in the text is read, clamped, or taken modulo the unsigned range, exactly as stated |
| TextSnapshot.LoadedByteIsCut | src/snapshot/snapshot_service.cpp:41-45 | a memory number outside 0 to 255 is cut to a byte |
| TextSnapshot.LoadsAnyFile | src/snapshot/snapshot_service.cpp:33-46 | a file that goes on with no number after its first line leaves pc 0, no memory, and the rest as it was |
| Legacy.VmClass.Execute | homework-2 and 3-client.cc:37-127 | executes one instruction on the register array; false is the exit on a division by zero |
| LegacyArithmetic.ExitsIff | homework-2 and 3-client.cc:90-97 | the program exits on a division by zero and on nothing else |
| LegacyArithmetic.WritesAlone | homework-2 and 3-client.cc:37-127 | each instruction writes one register, or hi and low, or nothing; li writes its immediate |
| LegacyArithmetic.SubThenAdd | homework-2 and 3-client.cc:42-52 | subtracting a register and adding it back gives the first operand again |
| LegacyArithmetic.LinesExactIff | homework-2 and 3-client.cc:37-78 | under the wrap-around choice above, a program of li, additions, subtractions and mul leaves in a register what unbounded arithmetic leaves there iff that fits in 32 bits |
| LegacyArithmetic.LogicActsOnBits | homework-2 and 3-client.cc:46-118 | and, or and xor, with a register or an immediate, work bit by bit on two's complement |
| LegacyArithmetic.ShiftsMoveBits | homework-2 and 3-client.cc:121-128 | sll moves the bits up and zeros in; srl moves them down and repeats the sign |
| LegacyArithmetic.MultIsExact | homework-2 and 3-client.cc:81-88 | hi and low hold the exact 64-bit product |
| LegacyArithmetic.DivRecombines | homework-2 and 3-client.cc:90-97 | low and hi recombine to the dividend, hi smaller than the divisor and with the dividend's sign |
| Legacy.VmClass.Solve | homework-2 and 3-client.cc:159-234 | counts the instruction, and at a MIGRATE that connects sends registers, count and file name |
| Legacy.RunClient | homework-2 and 3-client.cc:445-452 | runs the non-blank lines up to the end, an exit, or the message |
| Legacy.RunServer | homework-2 and 3- server.cc:362-396 | parses the message, skips that many lines and runs the rest |
| Legacy.MessageReadsBack | homework-2 and 3- server.cc:363-369 | the server reads registers and count as sent, whatever the name and whatever follows; it reads the name as sent iff that has no space and is not empty (or only spaces follow) |
| Legacy.MessageWords | homework-2 and 3-client.cc:204-209 | the message is, word by word, the registers in order, the count and the words of the file name |
| Legacy.WhereItStops | homework-2 and 3-client.cc:159-213 | a client that sends stops at a MIGRATE, in the state of the lines before it, with the count of the code lines up to it |
| Legacy.ResumesAfterMigrateIff | homework-2 and 3- server.cc:383-388 | the server resumes right after the MIGRATE iff no line before it is blank |
| Legacy.MigrationByMessage | homework-2 and 3- server.cc:362-396 | client, message and server together keep the registers exactly if running from the resume line does |
| Legacy.MigrationIsFaithful | homework-2 and 3- server.cc:362-396 | with no blank line before any MIGRATE, the server that gets the client's message ends with the registers of running the program in one place |
| Legacy.SafeLayoutIff | homework-2 and 3- server.cc:383-396 | a layout of blank lines is safe for all programs iff every line from the resume line to the MIGRATE is blank |

## Left out

- Files, sockets, standard output and the clock: texts and packets are values; DUMP output and migration durations are dropped.
- `src/main.cpp`, scripts and build files: wiring only.
- `src/cpu/instruction.cpp` and the legacy string parsing: programs are sequences of parsed instructions.
- `MlfqScheduler::NotifyRan`: nothing calls it.
- `project.cc`, `homework1.cc` and the legacy snapshot files: an earlier form of the same interpreter and loop.
- Out-of-range register indices, and C++ signed overflow other than as wrap-around.
- Allocation failure for the sizes found in a snapshot file or a packet.
- A legacy MIGRATE line without an address, on which the client's number parsing throws.
- Legacy.MessageReadsBack: the 1024-byte receive buffer is not modelled; the message is taken to fit.
- Serializer.Deserialize: a genuine packet is required to be long enough for its own length fields, because reading past the payload is undefined in the source.
- System.Isolation: like every theorem about the loop, it starts from VMs without a pending migration, as they are built.
- Core.HypervisorCore.Run: a method has to return, so it requires that the loop ends; runs that never end are covered by `RunTurns` and by the lemmas about `Iterations`.
