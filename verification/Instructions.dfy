/** What each instruction does to registers, memory and status. */
module Instructions {
  import opened Words
  import opened Memory
  import opened Machine
  import opened FlatStore

  /** The fault of a load or store at an address, read off the page table and the size of the memory. */
  function AccessFault(m: PagedMemory, va: uint32): Option<VmFault> {
    if va / 4096 !in m.pageTable then Some(VmFault(PageFault, "virtual page not mapped"))
    else if (m.pageTable[va / 4096] * 4096 + va % 4096) % 0x1_0000_0000 + 4 > |m.bytes|
    then Some(VmFault(AddressOutOfRange, "address outside VM memory"))
    else None
  }

  /** Exactly which instructions fault, and how: the fault is recorded and nothing else changes. */
  lemma FaultsIff(v: Vm, inst: Instruction, fault: VmFault)
    ensures Execute(v, inst) == Progress(v.(fault := fault, status := Faulted), 0) <==>
              || (inst.opcode == Div && v.cpu.regs[inst.rt] == 0
                  && fault == VmFault(DivideByZero, "division by zero"))
              || (inst.opcode in {And, Or, Xor, Sll, Srl, Invalid}
                  && fault == VmFault(IllegalOpcode, "illegal opcode"))
              || (inst.opcode in {Lw, Sw} && AccessFault(v.mem, inst.imm % 0x1_0000_0000) == Some(fault))
  {
  }

  /** Exactly which instructions retire; then pc is one further, the VM runs on, and neither the fault
      on record nor the migration intent changes. */
  lemma RetiresIff(v: Vm, inst: Instruction)
    ensures var p := Execute(v, inst);
            && (p.retired == 1 <==>
                  || inst.opcode in {Li, Add, Addi, Sub, Mul, DumpProcessorState, TakeSnapshot}
                  || (inst.opcode == Div && v.cpu.regs[inst.rt] != 0)
                  || (inst.opcode in {Lw, Sw} && AccessFault(v.mem, inst.imm % 0x1_0000_0000) == None))
            && (p.retired == 1 ==> p.vm == v.(cpu := p.vm.cpu, mem := p.vm.mem, status := Running))
            && (p.retired == 1 ==> p.vm.cpu.pc == v.cpu.pc + 1)
            && (p.retired != 1 ==> p.retired == 0 && p.vm.cpu == v.cpu && p.vm.mem == v.mem)
  {
  }

  /** HALT and MIGRATE stop the VM, and MIGRATE names its target. */
  lemma StopsIff(v: Vm, inst: Instruction, target: string)
    ensures Execute(v, inst) == Progress(v.(status := Halted), 0) <==> inst.opcode == Opcode.Halt
    ensures Execute(v, inst) == Progress(v.(status := Blocked, pending := Some(target)), 0)
            <==> inst.opcode == Opcode.Migrate && inst.target == target
  {
  }

  /** A dump and a snapshot only go on to the next instruction. */
  lemma QuietInstructions(v: Vm, inst: Instruction)
    requires inst.opcode in {DumpProcessorState, TakeSnapshot}
    ensures Execute(v, inst) == Progress(v.(cpu := v.cpu.(pc := v.cpu.pc + 1), status := Running), 1)
  {
  }

  /** li loads its immediate and changes nothing else. */
  lemma LoadImmediate(v: Vm, inst: Instruction)
    requires inst.opcode == Li
    ensures var after := Execute(v, inst).vm;
            && after.mem == v.mem && after.cpu.hi == v.cpu.hi && after.cpu.lo == v.cpu.lo
            && forall r: RegIndex :: after.cpu.regs[r] == if r == inst.rd then inst.imm else v.cpu.regs[r]
  {
  }

  /** A division that retires writes hi and lo alone: a quotient and remainder that recombine to the
      dividend, the remainder smaller than the divisor and with the dividend's sign, except for the one
      pair of operands whose quotient does not fit. */
  lemma RetiringDivision(v: Vm, inst: Instruction)
    requires inst.opcode == Div && v.cpu.regs[inst.rt] != 0
    ensures var after := Execute(v, inst).vm;
            var x: int, y: int, quotient: int, rest: int :=
              v.cpu.regs[inst.rs], v.cpu.regs[inst.rt], after.cpu.lo, after.cpu.hi;
            && after.cpu.regs == v.cpu.regs && after.mem == v.mem
            && (!(x == -0x8000_0000 && y == -1) ==>
                  && x == y * quotient + rest && Abs(rest) < Abs(y) && (rest != 0 ==> (rest < 0 <==> x < 0)))
  {
    var x, y := v.cpu.regs[inst.rs], v.cpu.regs[inst.rt];
    if !(x == -0x8000_0000 && y == -1) {
      DivisionRetires(v, inst);
    }
  }

  /** A store that retires writes the register to its own four bytes of the flat store, little end first,
      and changes no other byte and no register. */
  lemma RetiringStore(v: Vm, inst: Instruction, x: uint32)
    requires inst.opcode == Sw && Execute(v, inst).retired == 1
    requires FramesDistinct(v.mem) && Contiguous(v.mem, ToUint32(inst.imm))
    ensures var after, a := Execute(v, inst).vm, inst.imm % 0x1_0000_0000;
            && after.cpu == v.cpu.(pc := v.cpu.pc + 1) && after.mem.pageTable == v.mem.pageTable
            && ByteAt(after.mem, x) == if a <= x < a + 4 then Some(WordBytes(v.cpu.regs[inst.rs])[x - a])
                                       else ByteAt(v.mem, x)
  {
    WriteIsFlat(v.mem, ToUint32(inst.imm), v.cpu.regs[inst.rs], x);
  }

  /** A load that retires leaves the memory and every other register alone; its register gets the four
      bytes of the flat store at its address. */
  lemma RetiringLoad(v: Vm, inst: Instruction, k: nat)
    requires inst.opcode == Lw && Execute(v, inst).retired == 1
    requires Contiguous(v.mem, ToUint32(inst.imm)) && k < 4
    ensures var after, a := Execute(v, inst).vm, inst.imm % 0x1_0000_0000;
            && after.mem == v.mem && after.cpu.hi == v.cpu.hi && after.cpu.lo == v.cpu.lo
            && (forall r: RegIndex | r != inst.rd :: after.cpu.regs[r] == v.cpu.regs[r])
            && a + k < 0x1_0000_0000 && ByteAt(v.mem, a + k) == Some(WordBytes(after.cpu.regs[inst.rd])[k])
  {
    ReadIsFlat(v.mem, ToUint32(inst.imm), k);
  }
}
