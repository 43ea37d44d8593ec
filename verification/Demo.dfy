/** The repository's own programs, followed through the whole model. */
module Demo {
  import opened Words
  import opened Memory
  import opened Machine
  import opened Schedulers
  import opened Fairness
  import opened Migration
  import opened Metrics
  import opened System
  import opened Termination
  import opened Transfers
  import opened FlatStore
  import opened Instructions

  /** li $1, value; sw $1, 0; lw $2, 0; `between`; HALT. */
  function StoreAndLoad(value: int32, between: seq<Instruction>): (program: seq<Instruction>)
    ensures |program| == |between| + 4
  {
    [Instruction(Li, 1, 0, 0, value, ""), Instruction(Sw, 0, 1, 0, 0, ""), Instruction(Lw, 2, 0, 0, 0, "")]
    + between + [Instruction(Opcode.Halt, 0, 0, 0, 0, "")]
  }

  /** The demo program of main.cpp. */
  function DemoProgram(): (program: seq<Instruction>)
    ensures |program| == 5
  {
    StoreAndLoad(42, [Instruction(DumpProcessorState, 0, 0, 0, 0, "")])
  }

  /** A store to address 0 and a load from it, in a new memory with room for one word. */
  lemma StoreThenLoadRuns(v: Vm, size: nat)
    requires v.mem == FreshMemory(size) && 4 <= size <= TWO_32 && v.cpu.pc == 1 && |v.program| >= 3
    requires v.program[1] == Instruction(Sw, 0, 1, 0, 0, "") && v.program[2] == Instruction(Lw, 2, 0, 0, 0, "")
    ensures var second := Step(v).vm;
            && Step(v).retired == 1 && second.program == v.program && second.cpu.pc == 2
            && Step(second).retired == 1
            && Step(second).vm.cpu == v.cpu.(pc := 3, regs := v.cpu.regs[2 := v.cpu.regs[1]])
  {
    hide EffectOf, FreshMemory, FramesDistinct, Contiguous;
    BuiltWithAfter(size, []);
    BuiltIsIdentity(v.mem, size, 0);
    assert AccessFault(v.mem, 0) == None;
    RetiresIff(v, v.program[1]);
    BuiltMemoryIsFlat(v.mem, size, 0);
    RetiringStore(v, v.program[1], 0);
    var second := Step(v).vm;
    StoreThenLoad(v, v.program[1], v.program[2]);
    RetiresIff(second, second.program[2]);
    RetiringLoad(second, second.program[2], 0);
  }

  /** The first three instructions from a new VM. */
  lemma StoreAndLoadRuns(v: Vm, value: int32, between: seq<Instruction>)
    requires v == FreshVm(v.config, StoreAndLoad(value, between)).(status := Running)
    requires 4 <= v.config.memoryBytes <= TWO_32
    ensures var w := Burst(v, 3);
            && w.retired == 3 && w.vm.cpu.pc == 3 && w.vm.status == Running
            && w.vm.program == v.program && w.vm.config == v.config
            && w.vm.fault == NO_FAULT && w.vm.pending == None
            && w.vm.cpu.regs[1] == value && w.vm.cpu.regs[2] == value
  {
    hide EffectOf, FreshMemory, Burst;
    var first := Step(v).vm;
    LoadImmediate(v, v.program[0]);
    RetiresIff(v, v.program[0]);
    StoreThenLoadRuns(first, v.config.memoryBytes);
    var second := Step(first).vm;
    StepShape(first);
    StepShape(second);
    BurstOfThree(v, first, second);
  }

  lemma BurstOfThree(v: Vm, first: Vm, second: Vm)
    requires v.cpu.pc == 0 && |v.program| >= 3 && first.program == second.program == v.program
    requires Step(v) == Progress(first, 1) && first.cpu.pc == 1
    requires Step(first) == Progress(second, 1) && second.cpu.pc == 2 && Step(second).retired == 1
    ensures Burst(v, 3) == Progress(Step(second).vm, 3)
  {
    hide EffectOf;
    assert Burst(second, 1) == Progress(Burst(Step(second).vm, 0).vm, 1);
    assert Burst(first, 2) == Progress(Burst(second, 1).vm, 2);
  }

  lemma DumpThenHalt(w: Vm)
    requires w.cpu.pc == 3 && |w.program| == 5 && w.status == Running
    requires w.program[3].opcode == DumpProcessorState && w.program[4].opcode == Opcode.Halt
    ensures Burst(w, 2) == Progress(w.(cpu := w.cpu.(pc := 4), status := Halted), 1)
  {
    hide EffectOf;
    QuietInstructions(w, w.program[3]);
    var last := Step(w).vm;
    StopsIff(last, w.program[4], "");
    assert Burst(last, 1) == Progress(Step(last).vm, 0);
  }

  /** The demo program of main.cpp, run alone on a memory of at least one word: it halts after four
      instructions with 42 in both registers. */
  lemma DemoRuns(v: Vm)
    requires v == FreshVm(v.config, DemoProgram()) && 4 <= v.config.memoryBytes <= TWO_32
    ensures Solo(v).status == Halted && SoloRetired(v) == 4
    ensures Solo(v).cpu.regs[1] == 42 && Solo(v).cpu.regs[2] == 42
  {
    hide Step, Burst, FreshMemory;
    var start := v.(status := Running);
    StoreAndLoadRuns(start, 42, [Instruction(DumpProcessorState, 0, 0, 0, 0, "")]);
    DumpThenHalt(Burst(start, 3).vm);
    BurstSplit(start, 3, 2);
  }

  /** What TestVmMemoryInstructions asserts of its program: one slice of 10 leaves 123 in register 2. */
  lemma TestProgramRuns(v: Vm)
    requires v == FreshVm(v.config, StoreAndLoad(123, [])) && v.config.memoryBytes == 4096
    ensures RunSlice(v, 10).vm.cpu.regs[2] == 123
  {
    hide EffectOf, FreshMemory;
    var start := v.(status := Running);
    StoreAndLoadRuns(start, 123, []);
    var third := Burst(start, 3).vm;
    BurstSplit(start, 3, 7);
    StopsIff(third, third.program[3], "");
    assert Burst(third, 7) == Progress(Step(third).vm, 0);
  }

  lemma WriteThenRead(m: PagedMemory, va: uint32, word: int32)
    requires FramesDistinct(m) && Contiguous(m, va) && StoreWord(m, va, word).Granted?
    ensures Answers(m, [Write(va, word), Read(va)]) == [Stored(Granted(())), Word(Granted(word))]
  {
    ReadOverWrite(m, va, word, va);
    hide StoreWord, LoadWord, FramesDistinct, Contiguous;
    var operations := [Write(va, word), Read(va)];
    var written := AfterOne(m, operations[0]);
    assert operations[1..] == [Read(va)] && [Read(va)][1..] == [];
    assert Answers(written, [Read(va)]) == [AnswerTo(written, Read(va))] + Answers(written, []);
  }

  /** What TestVirtualMemoryReadWrite and TestPageFault assert: 99 written to address 0 of 16384 bytes is read back, and address 8192 of 4096
      bytes is a page fault. */
  lemma MemoryTests()
    ensures Answers(FreshMemory(16384), [Write(0, 99), Read(0)]) == [Stored(Granted(())), Word(Granted(99))]
    ensures LoadWord(FreshMemory(4096), 8192) == Trapped(VmFault(PageFault, "virtual page not mapped"))
  {
    hide FreshMemory, WordBytes, FramesDistinct, Contiguous, Answers;
    BuiltWithAfter(16384, []);
    BuiltIsIdentity(FreshMemory(16384), 16384, 0);
    BuiltMemoryIsFlat(FreshMemory(16384), 16384, 0);
    WriteThenRead(FreshMemory(16384), 0, 99);
    FaultClassification(4096, [], 8192);
  }

  /** What TestSchedulers asserts: of two ready VMs of priorities 1 and 10, round robin and the feedback queues pick
      the first and priority the second. */
  lemma SchedulerTest()
    ensures Pick(RoundRobin(0), [Ready, Ready], [1, 10]).index == 0
    ensures Pick(Priority, [Ready, Ready], [1, 10]).index == 1
    ensures Pick(Mlfq(false, [], [], []), [Ready, Ready], [1, 10]).index == 0
  {
    BestIsFirst([Ready, Ready], [1, 10], 2);
    assert Eligible([Ready, Ready], [1, 10], 1);
  }

  // ---------------------------------------------------------------------------------------
  // The system of main.cpp
  // ---------------------------------------------------------------------------------------

  lemma DemoNeeds(v: Vm)
    requires v == FreshVm(v.config, DemoProgram()) && 4 <= v.config.memoryBytes <= TWO_32 && v.config.slice >= 1
    ensures Finishes(v) && DispatchesNeeded(v) == 4 / v.config.slice + 1
  {
    hide Burst, RunSlice, ReachesMigrate, FreshMemory;
    DemoRuns(v);
    SoloEnd(v);
    SoloBlocksIff(v);
  }

  lemma SumOfTwo(f: Vm -> int, a: Vm, b: Vm)
    ensures Sum(f, [a, b]) == f(a) + f(b)
  {
    assert [a, b][1..] == [b] && [b][1..] == [];
    assert Sum(f, [b]) == f(b) + Sum(f, []);
    assert Sum(f, [a, b]) == f(a) + Sum(f, [b]);
  }

  /** The system main.cpp builds: two VMs with the demo program, slices of 3 and 2 and priorities of 2
      and 1. Under every policy its loop ends after exactly five turns, with 42 in both VMs' registers,
      four instructions recorded for each, two and three dispatches, and nothing sent. */
  lemma DemoSystem(oracle: Oracle, h: Hypervisor, a: VmConfig, b: VmConfig, k: nat)
    requires h.policy == RoundRobin(0) || h.policy == Priority || h.policy == Mlfq(false, [], [], [])
    requires h.vms == [FreshVm(a, DemoProgram()), FreshVm(b, DemoProgram())] && h.wire == []
    requires h.stats == SchedulerStats(map[], map[])
    requires a.slice == 3 && b.slice == 2 && a.priority == 2 && b.priority == 1 && a.name != b.name
    requires a.memoryBytes == b.memoryBytes == 65536
    ensures AllDone(Iterations(oracle, h, k).vms) <==> k >= 5
    ensures k >= 5 ==>
              var after := Iterations(oracle, h, k);
              && (forall i | 0 <= i < 2 :: after.vms[i].status == Halted && after.vms[i].cpu.regs[2] == 42)
              && Tally(after.stats.instructionsByVm, a.name) == 4
              && Tally(after.stats.instructionsByVm, b.name) == 4
              && Tally(after.stats.dispatchCountByVm, a.name) == 2
              && Tally(after.stats.dispatchCountByVm, b.name) == 3
              && after.wire == []
  {
    hide Iterations, DispatchesNeeded, Solo, SoloRetired, Finishes, DemoProgram, FreshMemory;
    DemoNeeds(h.vms[0]);
    DemoNeeds(h.vms[1]);
    SumOfTwo(Needs(), h.vms[0], h.vms[1]);
    assert Terminating(h);
    ExactTurns(oracle, h, k);
    TerminatingRunIsQuiet(oracle, h, k);
    if k >= 5 {
      DemoResult(oracle, h, k, 0);
      DemoResult(oracle, h, k, 1);
    }
  }

  lemma DemoResult(oracle: Oracle, h: Hypervisor, k: nat, i: nat)
    requires NonePending(h.vms) && Terminating(h) && PolicySound(h.policy, Statuses(h.vms))
    requires AllDone(Iterations(oracle, h, k).vms) && i < |h.vms| && NameUnique(h.vms, i)
    requires h.stats == SchedulerStats(map[], map[])
    requires h.vms[i] == FreshVm(h.vms[i].config, DemoProgram()) && 4 <= h.vms[i].config.memoryBytes <= TWO_32
    ensures var v, after := h.vms[i], Iterations(oracle, h, k);
            && after.vms[i].status == Halted && after.vms[i].cpu.regs[2] == 42
            && Tally(after.stats.instructionsByVm, v.config.name) == 4
            && Tally(after.stats.dispatchCountByVm, v.config.name) == DispatchesNeeded(v)
  {
    hide Iterations, DispatchesNeeded, Solo, SoloRetired, Terminating, PolicySound, DemoProgram, FreshMemory;
    hide NameUnique;
    DemoRuns(h.vms[i]);
    Isolation(oracle, h, k, i);
    ExactInstructionCount(oracle, h, k, i);
    ExactDispatchCount(oracle, h, k, i);
  }
}
