/** One virtual machine: its instruction set, its time slices, and the class that runs them in place. */
module Machine {
  import opened Words
  import opened Memory

  datatype VmStatus = Ready | Running | Blocked | Halted | Faulted

  datatype Opcode =
    | Li | Add | Addi | Sub | Mul | Div
    | And | Or | Xor | Sll | Srl
    | Lw | Sw
    | DumpProcessorState | TakeSnapshot | Migrate | Halt | Invalid

  type RegIndex = x: int | 0 <= x < 32

  datatype Instruction = Instruction(
    opcode: Opcode, rd: RegIndex, rs: RegIndex, rt: RegIndex, imm: int32, target: string)

  type RegisterFile = s: seq<int32> | |s| == 32 witness seq(32, _ => 0)

  datatype CpuState = CpuState(regs: RegisterFile, hi: int32, lo: int32, pc: nat)

  /** std::string: a sequence of bytes. */
  type Name = seq<byte>

  datatype VmConfig = VmConfig(name: Name, slice: nat, priority: int32, memoryBytes: nat)

  const DIVIDE_BY_ZERO := VmFault(DivideByZero, "division by zero")
  const ILLEGAL_OPCODE := VmFault(IllegalOpcode, "illegal opcode")

  predicate Terminal(status: VmStatus) {
    status == Halted || status == Faulted
  }

  // ---------------------------------------------------------------------------------------
  // The reference: a VM as a value, over a memory without TLB.
  // ---------------------------------------------------------------------------------------

  datatype Vm = Vm(
    config: VmConfig,
    program: seq<Instruction>,
    cpu: CpuState,
    mem: PagedMemory,
    status: VmStatus,
    fault: VmFault,
    pending: Option<string>)
  {
    predicate Done() {
      Terminal(status)
    }

    predicate AtEnd() {
      cpu.pc >= |program|
    }

    /** The instructions from pc to the end of the program. */
    function Remaining(): nat {
      if AtEnd() then 0 else |program| - cpu.pc
    }
  }

  /** A VM as the constructor leaves it. */
  function FreshVm(config: VmConfig, program: seq<Instruction>): Vm {
    Vm(config, program, CpuState(seq(32, _ => 0), 0, 0, 0), FreshMemory(config.memoryBytes),
       Ready, NO_FAULT, None)
  }

  /** What one instruction does, which depends on the registers and the memory alone. */
  datatype Effect =
    | Retires(cpu: CpuState, mem: PagedMemory)
    | Traps(fault: VmFault)
    | Blocks(target: string)
    | Halts

  function WithReg(cpu: CpuState, r: RegIndex, value: int32): CpuState {
    cpu.(regs := cpu.regs[r := value])
  }

  function EffectOf(cpu: CpuState, mem: PagedMemory, inst: Instruction): Effect {
    var x: int, y: int := cpu.regs[inst.rs], cpu.regs[inst.rt];
    match inst.opcode
    case Li => Retires(WithReg(cpu, inst.rd, inst.imm), mem)
    case Add => Retires(WithReg(cpu, inst.rd, Wrap32(x + y)), mem)
    case Addi => Retires(WithReg(cpu, inst.rd, Wrap32(x + inst.imm)), mem)
    case Sub => Retires(WithReg(cpu, inst.rd, Wrap32(x - y)), mem)
    case Mul => Retires(WithReg(cpu, inst.rd, Wrap32(x * y)), mem)
    case Div =>
      if y == 0 then Traps(DIVIDE_BY_ZERO)
      else Retires(cpu.(lo := Wrap32(TruncDiv(x, y)), hi := Wrap32(TruncRem(x, y))), mem)
    case Lw =>
      (match LoadWord(mem, ToUint32(inst.imm))
       case Trapped(fault) => Traps(fault)
       case Granted(word) => Retires(WithReg(cpu, inst.rd, word), mem))
    case Sw =>
      (match StoreWord(mem, ToUint32(inst.imm), x)
       case Trapped(fault) => Traps(fault)
       case Granted(after) => Retires(cpu, after))
    case DumpProcessorState => Retires(cpu, mem)
    case TakeSnapshot => Retires(cpu, mem)
    case Migrate => Blocks(inst.target)
    case Halt => Halts
    case _ => Traps(ILLEGAL_OPCODE)
  }

  /** A VM after some instructions, with the number it retired. */
  datatype Progress = Progress(vm: Vm, retired: nat)

  function Apply(v: Vm, effect: Effect): Progress {
    match effect
    case Retires(cpu, mem) =>
      Progress(v.(cpu := cpu.(pc := cpu.pc + 1), mem := mem, status := Running), 1)
    case Traps(fault) => Progress(v.(fault := fault, status := Faulted), 0)
    case Blocks(target) => Progress(v.(pending := Some(target), status := Blocked), 0)
    case Halts => Progress(v.(status := Halted), 0)
  }

  function Execute(v: Vm, inst: Instruction): Progress {
    Apply(v, EffectOf(v.cpu, v.mem, inst))
  }

  /** The instruction at pc. */
  function Step(v: Vm): Progress
    requires !v.AtEnd()
  {
    Execute(v, v.program[v.cpu.pc])
  }

  /** At most n instructions, up to the first that does not retire or the end of the program. */
  function Burst(v: Vm, n: nat): Progress
    decreases n
  {
    if n == 0 || v.AtEnd() then Progress(v, 0)
    else
      var first := Step(v);
      if first.retired == 0 then Progress(first.vm, 0)
      else
        var rest := Burst(first.vm, n - 1);
        Progress(rest.vm, rest.retired + 1)
  }

  /** The status a slice leaves behind. */
  function Settle(v: Vm): Vm {
    if v.AtEnd() then v.(status := Halted)
    else if v.status == Running then v.(status := Ready)
    else v
  }

  /** A scheduling slice of at most n instructions. */
  function RunSlice(v: Vm, n: nat): Progress {
    if v.Done() then Progress(v, 0)
    else
      var burst := Burst(v.(status := Running), n);
      Progress(Settle(burst.vm), burst.retired)
  }

  /** A VM run alone until it cannot go further: the instructions left are enough for that. */
  function Solo(v: Vm): Vm {
    RunSlice(v, v.Remaining()).vm.(pending := None)
  }

  /** How many instructions the solo run retires. */
  function SoloRetired(v: Vm): nat {
    RunSlice(v, v.Remaining()).retired
  }

  // ---------------------------------------------------------------------------------------
  // The implementation.
  // ---------------------------------------------------------------------------------------

  datatype VmSnapshot = VmSnapshot(name: Name, cpu: CpuState, pageTable: PageTable, memory: seq<byte>)

  function TakeSnapshotOf(v: Vm): VmSnapshot {
    VmSnapshot(v.config.name, v.cpu, v.mem.pageTable, v.mem.bytes)
  }

  function RestoreFrom(v: Vm, s: VmSnapshot): Vm {
    v.(cpu := s.cpu, mem := PagedMemory(s.memory, s.pageTable), status := Ready)
  }

  class VirtualMachine {
    const config: VmConfig
    const program: seq<Instruction>
    const memory: VirtualMemory
    var cpu: CpuState
    var status: VmStatus
    var lastFault: VmFault
    var pendingMigrationTarget: Option<string>

    ghost predicate Valid()
      reads this, memory
    {
      memory.Valid()
    }

    /** The VM as a value; the TLB of its memory is not part of it. */
    ghost function State(): Vm
      reads this, memory
    {
      Vm(config, program, cpu, memory.Contents(), status, lastFault, pendingMigrationTarget)
    }

    constructor (config: VmConfig, program: seq<Instruction>)
      ensures Valid() && fresh(memory)
      ensures State() == FreshVm(config, program)
      ensures cpu.pc == 0 && cpu.hi == 0 && cpu.lo == 0 && forall r: RegIndex :: cpu.regs[r] == 0
      ensures status == Ready && lastFault == NO_FAULT && pendingMigrationTarget == None
      ensures |memory.bytes| == config.memoryBytes && forall k | 0 <= k < |memory.bytes| :: memory.bytes[k] == 0
    {
      this.config := config;
      this.program := program;
      memory := new VirtualMemory(config.memoryBytes);
      cpu := CpuState(seq(32, _ => 0), 0, 0, 0);
      status := Ready;
      lastFault := NO_FAULT;
      pendingMigrationTarget := None;
    }

    method SetReg(r: RegIndex, value: int32)
      modifies this`cpu
      ensures cpu == old(cpu).(regs := old(cpu).regs[r := value])
    {
      cpu := cpu.(regs := cpu.regs[r := value]);
    }

    method ExecuteOne(inst: Instruction) returns (retired: nat)
      requires Valid()
      modifies this, memory
      ensures Valid()
      ensures Progress(State(), retired) == Execute(old(State()), inst)
    {
      var x: int, y: int := cpu.regs[inst.rs], cpu.regs[inst.rt];
      match inst.opcode {
        case Li =>
          SetReg(inst.rd, inst.imm);
        case Add =>
          SetReg(inst.rd, Wrap32(x + y));
        case Addi =>
          SetReg(inst.rd, Wrap32(x + inst.imm));
        case Sub =>
          SetReg(inst.rd, Wrap32(x - y));
        case Mul =>
          SetReg(inst.rd, Wrap32(x * y));
        case Div =>
          if y == 0 {
            lastFault := DIVIDE_BY_ZERO;
            status := Faulted;
            return 0;
          }
          cpu := cpu.(lo := Wrap32(TruncDiv(x, y)));
          cpu := cpu.(hi := Wrap32(TruncRem(x, y)));
        case Lw =>
          var value := memory.ReadWord(ToUint32(inst.imm));
          if value.Trapped? {
            lastFault := value.fault;
            status := Faulted;
            return 0;
          }
          SetReg(inst.rd, value.value);
        case Sw =>
          var done := memory.WriteWord(ToUint32(inst.imm), x);
          if done.Trapped? {
            lastFault := done.fault;
            status := Faulted;
            return 0;
          }
        case DumpProcessorState =>
        case TakeSnapshot =>
        case Migrate =>
          pendingMigrationTarget := Some(inst.target);
          status := Blocked;
          return 0;
        case Halt =>
          status := Halted;
          return 0;
        case _ =>
          lastFault := ILLEGAL_OPCODE;
          status := Faulted;
          return 0;
      }
      cpu := cpu.(pc := cpu.pc + 1);
      status := Running;
      return 1;
    }

    method RunForSlice(maxInstructions: nat) returns (ran: nat)
      requires Valid()
      modifies this, memory
      ensures Valid()
      ensures Progress(State(), ran) == RunSlice(old(State()), maxInstructions)
    {
      hide Execute;
      if status == Halted || status == Faulted {
        return 0;
      }
      status := Running;
      ghost var start := State();
      ran := 0;
      while ran < maxInstructions && cpu.pc < |program|
        invariant Valid() && ran <= maxInstructions
        invariant var rest := Burst(State(), maxInstructions - ran);
                  Burst(start, maxInstructions) == Progress(rest.vm, ran + rest.retired)
        decreases maxInstructions - ran
      {
        StepShape(State());
        var advanced := ExecuteOne(program[cpu.pc]);
        if advanced == 0 {
          assert Burst(start, maxInstructions) == Progress(State(), ran);
          break;
        }
        ran := ran + advanced;
      }
      assert Burst(start, maxInstructions) == Progress(State(), ran);
      if cpu.pc >= |program| {
        status := Halted;
      } else if status == Running {
        status := Ready;
      }
    }

    method Snapshot() returns (s: VmSnapshot)
      ensures s == TakeSnapshotOf(State())
    {
      s := VmSnapshot(config.name, cpu, memory.pageTable, memory.bytes);
    }

    method Restore(s: VmSnapshot)
      requires Valid()
      modifies this, memory
      ensures Valid()
      ensures State() == RestoreFrom(old(State()), s)
    {
      cpu := s.cpu;
      memory.bytes := s.memory;
      memory.RestorePageTable(s.pageTable);
      status := Ready;
    }

    method ClearMigrationIntent()
      modifies this`pendingMigrationTarget
      ensures State() == old(State()).(pending := None)
    {
      pendingMigrationTarget := None;
    }
  }

  // ---------------------------------------------------------------------------------------
  // Slices compose.
  // ---------------------------------------------------------------------------------------

  /** What one instruction can change, read off its retired count. */
  lemma StepShape(v: Vm)
    requires !v.AtEnd()
    ensures var p := Step(v);
            && p.vm.config == v.config && p.vm.program == v.program
            && (p.retired == 1 ==> && v.program[v.cpu.pc].opcode != Migrate
                                   && p.vm.cpu.pc == v.cpu.pc + 1 && p.vm.status == Running
                                   && p.vm.fault == v.fault && p.vm.pending == v.pending)
            && (p.retired != 1 ==> && p.retired == 0 && p.vm.cpu == v.cpu && p.vm.mem == v.mem
                                   && p.vm.status in {Blocked, Halted, Faulted}
                                   && (p.vm.status == Blocked <==> v.program[v.cpu.pc].opcode == Migrate)
                                   && (p.vm.status == Halted <==> v.program[v.cpu.pc].opcode == Halt)
                                   && (p.vm.status != Faulted ==> p.vm.fault == v.fault)
                                   && p.vm.pending == (if p.vm.status == Blocked
                                                       then Some(v.program[v.cpu.pc].target) else v.pending))
  {
  }

  /** An instruction that does not retire stops the VM the same way however often it is tried. */
  lemma StopIsStable(v: Vm, status: VmStatus)
    requires !v.AtEnd() && Step(v).retired == 0
    ensures Step(Step(v).vm.(status := status)) == Step(v)
  {
  }

  lemma {:induction false} BurstShape(v: Vm, n: nat)
    ensures var p := Burst(v, n);
            && p.retired <= n && p.retired <= v.Remaining()
            && p.vm.config == v.config && p.vm.program == v.program
            && p.vm.cpu.pc == v.cpu.pc + p.retired
            && (v.status == Running && p.vm.status != Running ==>
                  !p.vm.AtEnd() && p.retired < n && p.vm.status in {Blocked, Halted, Faulted})
            && (v.status == Running && p.vm.status == Running ==>
                  p.retired == n || p.vm.AtEnd())
    decreases n
  {
    if n > 0 && !v.AtEnd() {
      StepShape(v);
      if Step(v).retired != 0 {
        BurstShape(Step(v).vm, n - 1);
      }
    }
  }

  /** A burst of a + b is a burst of a, continued with b if it was not stopped. */
  lemma {:induction false} BurstSplit(v: Vm, a: nat, b: nat)
    requires v.status == Running
    ensures var first := Burst(v, a);
            Burst(v, a + b) ==
              if first.vm.status != Running then first
              else var rest := Burst(first.vm, b);
                   Progress(rest.vm, first.retired + rest.retired)
    decreases a
  {
    if a > 0 && !v.AtEnd() {
      StepShape(v);
      if Step(v).retired != 0 {
        BurstSplit(Step(v).vm, a - 1, b);
      }
    }
  }

  /** A burst that was stopped sits on the instruction that stopped it, which stops it again. */
  lemma {:induction false} BurstStopStable(v: Vm, a: nat, b: nat)
    requires v.status == Running && b >= 1
    requires Burst(v, a).vm.status != Running
    ensures Burst(Burst(v, a).vm.(status := Running), b) == Progress(Burst(v, a).vm, 0)
    decreases a
  {
    if a > 0 && !v.AtEnd() {
      StepShape(v);
      if Step(v).retired != 0 {
        BurstStopStable(Step(v).vm, a - 1, b);
      } else {
        StopIsStable(v, Running);
      }
    }
  }

  /** Splitting a slice in two changes neither the final state nor the number of instructions retired,
      from any state and through halts, faults and migration blocks. */
  lemma SliceSplit(v: Vm, a: nat, b: nat)
    requires b >= 1
    ensures var first := RunSlice(v, a);
            var second := RunSlice(first.vm, b);
            RunSlice(v, a + b) == Progress(second.vm, first.retired + second.retired)
  {
    if !v.Done() {
      var start := v.(status := Running);
      var first := Burst(start, a);
      BurstSplit(start, a, b);
      BurstShape(start, a);
      if first.vm.status == Running {
        assert Settle(first.vm).AtEnd() || Settle(first.vm).(status := Running) == first.vm;
      } else if first.vm.status == Blocked {
        BurstStopStable(start, a, b);
      }
    }
  }

  /** The condition on b is exact: with b == 0 the split differs precisely when the first slice blocks. */
  lemma SliceSplitZero(v: Vm, a: nat)
    ensures RunSlice(RunSlice(v, a).vm, 0).vm == RunSlice(v, a).vm <==> RunSlice(v, a).vm.status != Blocked
  {
    if !v.Done() {
      BurstShape(v.(status := Running), a);
    }
  }

  /** Any slice long enough for the instructions left equals the solo run, up to the migration intent. */
  lemma {:induction false} BurstEnough(v: Vm, n: nat, m: nat)
    requires v.Remaining() <= n && v.Remaining() <= m
    ensures Burst(v, n) == Burst(v, m)
    decreases n
  {
    if !v.AtEnd() {
      StepShape(v);
      if Step(v).retired != 0 {
        BurstEnough(Step(v).vm, n - 1, m - 1);
      }
    }
  }

  lemma SliceEnough(v: Vm, n: nat)
    requires v.Remaining() <= n
    ensures RunSlice(v, n) == RunSlice(v, v.Remaining())
  {
    BurstEnough(v.(status := Running), n, v.Remaining());
  }

  /** What a slice keeps, and how far it moves pc. */
  lemma SliceShape(v: Vm, n: nat)
    ensures var p := RunSlice(v, n);
            && p.vm.config == v.config && p.vm.program == v.program
            && p.vm.cpu.pc == v.cpu.pc + p.retired
            && p.retired <= n && p.retired <= v.Remaining()
            && p.vm.Remaining() == v.Remaining() - p.retired
            && p.vm.status != Running
  {
    BurstShape(v.(status := Running), n);
  }

  /** Running any slice first does not change the result of the solo run, and the instructions
      retired add up. */
  lemma SoloAfterSlice(v: Vm, n: nat)
    ensures Solo(RunSlice(v, n).vm) == Solo(v)
    ensures RunSlice(v, n).retired + SoloRetired(RunSlice(v, n).vm) == SoloRetired(v)
  {
    SliceShape(v, n);
    var w := RunSlice(v, n).vm;
    var long := v.Remaining() + 1;
    SliceSplit(v, n, long);
    SliceEnough(v, n + long);
    SliceEnough(w, long);
  }

  /** Running v without interruption comes to a MIGRATE instruction. */
  predicate ReachesMigrate(v: Vm)
    decreases v.Remaining()
  {
    && !v.AtEnd()
    && (|| v.program[v.cpu.pc].opcode == Migrate
        || (Step(v).retired == 1 && ReachesMigrate(Step(v).vm)))
  }

  lemma {:induction false} BurstBlocks(v: Vm)
    requires v.status == Running
    ensures Burst(v, v.Remaining()).vm.status == Blocked <==> ReachesMigrate(v)
    decreases v.Remaining()
  {
    hide Step;
    if !v.AtEnd() {
      StepShape(v);
      if Step(v).retired == 1 {
        BurstBlocks(Step(v).vm);
      }
    }
  }

  lemma ReachIgnoresStatus(v: Vm, status: VmStatus)
    ensures ReachesMigrate(v.(status := status)) == ReachesMigrate(v)
  {
    var w := v.(status := status);
    assert !v.AtEnd() && Step(v).retired == 1 ==> Step(w) == Step(v);
  }

  /** The solo run of a live VM ends blocked exactly when it comes to a MIGRATE, and done otherwise. */
  lemma SoloBlocksIff(v: Vm)
    requires !v.Done()
    ensures Solo(v).status == Blocked <==> ReachesMigrate(v)
    ensures Solo(v).Done() <==> !ReachesMigrate(v)
  {
    hide Step, Burst, ReachesMigrate;
    var start := v.(status := Running);
    BurstBlocks(start);
    BurstShape(start, v.Remaining());
    ReachIgnoresStatus(v, Running);
  }

  /** A division that retires leaves quotient and remainder that recombine to the dividend, for all
      operands but the one pair whose quotient does not fit. */
  lemma DivisionRetires(v: Vm, inst: Instruction)
    requires inst.opcode == Div && v.cpu.regs[inst.rt] != 0
    requires !(v.cpu.regs[inst.rs] == -0x8000_0000 && v.cpu.regs[inst.rt] == -1)
    ensures var after := Execute(v, inst).vm.cpu;
            && v.cpu.regs[inst.rs] == v.cpu.regs[inst.rt] * after.lo + after.hi
            && Abs(after.hi) < Abs(v.cpu.regs[inst.rt])
            && (after.hi != 0 ==> (after.hi < 0 <==> v.cpu.regs[inst.rs] < 0))
  {
    var a: int, b: int := v.cpu.regs[inst.rs], v.cpu.regs[inst.rt];
    TruncDivision(a, b);
    QuotientFits(a, b);
  }

  lemma QuotientFits(a: int32, b: int32)
    requires b != 0 && !(a == -0x8000_0000 && b == -1)
    ensures Wrap32(TruncDiv(a, b)) == TruncDiv(a, b)
    ensures Wrap32(TruncRem(a, b)) == TruncRem(a, b)
  {
    QuotientSize(Abs(a), Abs(b));
    WrapFits(TruncDiv(a, b));
    WrapFits(TruncRem(a, b));
  }

  lemma QuotientSize(x: nat, y: nat)
    requires y > 0
    ensures x / y <= x && (y >= 2 ==> x / y <= x / 2)
    ensures x % y < y && x % y <= x
  {
    var q, r := x / y, x % y;
    assert x == y * q + r;
    MulMonotone(1, y, q);
    if y >= 2 {
      MulMonotone(2, y, q);
    }
  }

  lemma MulMonotone(k: nat, y: nat, q: nat)
    requires k <= y
    ensures k * q <= y * q
  {
  }

  lemma WrapFits(x: int)
    requires -0x8000_0000 <= x < 0x8000_0000
    ensures Wrap32(x) == x
  {
    WrapRoundTrip(x);
  }

  /** The instructions that compute on registers alone and cannot trap. */
  predicate Arithmetic(opcode: Opcode) {
    opcode in {Li, Add, Addi, Sub, Mul}
  }

  /** What such an instruction computes over integers of any size. */
  function ExactValue(inst: Instruction, x: int, y: int): int {
    match inst.opcode
    case Add => x + y
    case Addi => x + inst.imm
    case Sub => x - y
    case Mul => x * y
    case _ => inst.imm
  }

  /** It writes rd alone, with the exact result up to a multiple of 2^32. */
  lemma ArithmeticModulo(v: Vm, inst: Instruction)
    requires Arithmetic(inst.opcode)
    ensures var p := Execute(v, inst);
            && p.retired == 1 && p.vm.mem == v.mem && p.vm.cpu.hi == v.cpu.hi && p.vm.cpu.lo == v.cpu.lo
            && (p.vm.cpu.regs[inst.rd] - ExactValue(inst, v.cpu.regs[inst.rs], v.cpu.regs[inst.rt])) % TWO_32 == 0
            && forall r: RegIndex | r != inst.rd :: p.vm.cpu.regs[r] == v.cpu.regs[r]
  {
    WrapModulo(ExactValue(inst, v.cpu.regs[inst.rs], v.cpu.regs[inst.rt]));
  }

  lemma WrapModulo(x: int)
    ensures (Wrap32(x) - x) % TWO_32 == 0
  {
    assert x == x / TWO_32 * TWO_32 + x % TWO_32;
  }

  /** The next n instructions are all arithmetic. */
  predicate ArithmeticAhead(v: Vm, n: nat) {
    forall k | v.cpu.pc <= k < v.cpu.pc + n && k < |v.program| :: Arithmetic(v.program[k].opcode)
  }

  function ExactStep(regs: seq<int>, inst: Instruction): (r: seq<int>)
    requires |regs| == 32
    ensures |r| == 32
  {
    regs[inst.rd := ExactValue(inst, regs[inst.rs], regs[inst.rt])]
  }

  function ExactRun(regs: seq<int>, program: seq<Instruction>, pc: nat, n: nat): (r: seq<int>)
    requires |regs| == 32
    ensures |r| == 32
    decreases n
  {
    if n == 0 || pc >= |program| then regs
    else ExactRun(ExactStep(regs, program[pc]), program, pc + 1, n - 1)
  }

  /** Equal up to multiples of 2^32. */
  predicate Congruent(regs: RegisterFile, exact: seq<int>)
    requires |exact| == 32
  {
    forall r: RegIndex :: (regs[r] - exact[r]) % TWO_32 == 0
  }

  lemma MultipleOf(x: int, k: int)
    requires x == TWO_32 * k
    ensures x % TWO_32 == 0
  {
  }

  lemma MultiplesAdd(p: int, q: int)
    requires p % TWO_32 == 0 && q % TWO_32 == 0
    ensures (p + q) % TWO_32 == 0 && (p - q) % TWO_32 == 0
  {
    var k, l := p / TWO_32, q / TWO_32;
    assert p == TWO_32 * k && q == TWO_32 * l;
    MultipleOf(p + q, k + l);
    MultipleOf(p - q, k - l);
  }

  lemma CongruentSum(x: int, y: int, a: int, b: int)
    requires (x - a) % TWO_32 == 0 && (y - b) % TWO_32 == 0
    ensures ((x + y) - (a + b)) % TWO_32 == 0 && ((x - y) - (a - b)) % TWO_32 == 0
  {
    MultiplesAdd(x - a, y - b);
    assert (x + y) - (a + b) == (x - a) + (y - b) && (x - y) - (a - b) == (x - a) - (y - b);
  }

  lemma CongruentProduct(x: int, y: int, a: int, b: int)
    requires (x - a) % TWO_32 == 0 && (y - b) % TWO_32 == 0
    ensures (x * y - a * b) % TWO_32 == 0
  {
    var k, l := (x - a) / TWO_32, (y - b) / TWO_32;
    assert x - a == TWO_32 * k && y - b == TWO_32 * l;
    calc {
      x * y - a * b;
      (x - a) * y + a * (y - b);
      TWO_32 * k * y + a * (TWO_32 * l);
      TWO_32 * (k * y + a * l);
    }
    MultipleOf(x * y - a * b, k * y + a * l);
  }

  lemma CongruentValues(inst: Instruction, x: int, y: int, a: int, b: int)
    requires (x - a) % TWO_32 == 0 && (y - b) % TWO_32 == 0
    ensures (ExactValue(inst, x, y) - ExactValue(inst, a, b)) % TWO_32 == 0
  {
    match inst.opcode {
      case Mul => CongruentProduct(x, y, a, b);
      case Add => CongruentSum(x, y, a, b);
      case Sub => CongruentSum(x, y, a, b);
      case Addi => CongruentSum(x, inst.imm, a, inst.imm);
      case _ =>
    }
  }

  /** One instruction keeps the registers congruent. */
  lemma ArithmeticStep(v: Vm, inst: Instruction, exact: seq<int>)
    requires Arithmetic(inst.opcode) && |exact| == 32 && Congruent(v.cpu.regs, exact)
    ensures Execute(v, inst).retired == 1
    ensures Congruent(Execute(v, inst).vm.cpu.regs, ExactStep(exact, inst))
  {
    hide Execute, ExactValue;
    ArithmeticModulo(v, inst);
    var x: int, y: int, a, b := v.cpu.regs[inst.rs], v.cpu.regs[inst.rt], exact[inst.rs], exact[inst.rt];
    CongruentValues(inst, x, y, a, b);
    MultiplesAdd(Execute(v, inst).vm.cpu.regs[inst.rd] - ExactValue(inst, x, y),
                 ExactValue(inst, x, y) - ExactValue(inst, a, b));
  }

  lemma {:induction false} ArithmeticBurst(v: Vm, exact: seq<int>, n: nat)
    requires ArithmeticAhead(v, n) && |exact| == 32 && Congruent(v.cpu.regs, exact)
    ensures Congruent(Burst(v, n).vm.cpu.regs, ExactRun(exact, v.program, v.cpu.pc, n))
    decreases n
  {
    hide Execute, ExactStep, Congruent;
    if n > 0 && !v.AtEnd() {
      ArithmeticStep(v, v.program[v.cpu.pc], exact);
      StepShape(v);
      ArithmeticBurst(Step(v).vm, ExactStep(exact, v.program[v.cpu.pc]), n - 1);
    }
  }

  /** A slice of arithmetic instructions leaves in a register what unbounded arithmetic leaves there if
      and only if that fits in 32 bits: it does not matter how often values on the way wrapped. */
  lemma ArithmeticExactIff(v: Vm, n: nat, r: RegIndex)
    requires !v.Done() && ArithmeticAhead(v, n)
    ensures var exact := ExactRun(v.cpu.regs, v.program, v.cpu.pc, n)[r];
            RunSlice(v, n).vm.cpu.regs[r] == exact <==> -0x8000_0000 <= exact < 0x8000_0000
  {
    hide ExactRun, Burst;
    ArithmeticBurst(v.(status := Running), v.cpu.regs, n);
  }

  /** A sw that retires and a lw of the same address move the stored register into the loaded one. */
  lemma StoreThenLoad(v: Vm, store: Instruction, load: Instruction)
    requires store.opcode == Sw && load.opcode == Lw && load.imm == store.imm
    requires FramesDistinct(v.mem) && Contiguous(v.mem, ToUint32(store.imm))
    requires Execute(v, store).retired == 1
    ensures var after := Execute(Execute(v, store).vm, load);
            after.retired == 1 && after.vm.cpu.regs == v.cpu.regs[load.rd := v.cpu.regs[store.rs]]
  {
    ReadOverWrite(v.mem, ToUint32(store.imm), v.cpu.regs[store.rs], ToUint32(store.imm));
  }
}
