/** Moving a VM through a packet: when the receiver continues exactly as the sender would have. */
module Checkpoint {
  import opened Words
  import opened Memory
  import opened Machine
  import opened Serializer
  import opened Decimals
  import opened TextSnapshot

  /** What two machines must agree on to be the same machine; name, slice and migration intent are not part of it. */
  predicate SameMachine(a: Vm, b: Vm) {
    a.cpu == b.cpu && a.mem.bytes == b.mem.bytes && a.status == b.status && a.fault == b.fault
  }

  /** A done VM sits on the instruction that ended it, and only a faulted VM has a fault on record.
      Every VM that was only ever built and run is like this. */
  predicate Coherent(v: Vm) {
    && (v.status == Halted ==> v.AtEnd() || EffectOf(v.cpu, v.mem, v.program[v.cpu.pc]) == Halts)
    && (v.status == Faulted ==> !v.AtEnd() && EffectOf(v.cpu, v.mem, v.program[v.cpu.pc]) == Traps(v.fault))
    && (v.status != Faulted ==> v.fault == NO_FAULT)
  }

  lemma {:induction false} CoherentBurst(v: Vm, n: nat)
    requires v.status == Running && v.fault == NO_FAULT
    ensures Coherent(Burst(v, n).vm)
    decreases n
  {
    if n > 0 && !v.AtEnd() {
      StepShape(v);
      if Step(v).retired != 0 {
        CoherentBurst(Step(v).vm, n - 1);
      }
    }
  }

  /** Coherence is an invariant of running. */
  lemma CoherentSlice(v: Vm, n: nat)
    requires Coherent(v)
    ensures Coherent(RunSlice(v, n).vm)
  {
    if !v.Done() {
      CoherentBurst(v.(status := Running), n);
      BurstShape(v.(status := Running), n);
    }
  }

  // ---------------------------------------------------------------------------------------
  // With the sender's page table
  // ---------------------------------------------------------------------------------------

  /** Two machines about to run the same code in the same state. */
  predicate Twins(x: Vm, y: Vm) {
    && x.program == y.program && x.cpu == y.cpu && x.mem == y.mem
    && x.status == Running && y.status == Running && x.fault == y.fault
  }

  lemma {:induction false} TwinBursts(x: Vm, y: Vm, n: nat)
    requires Twins(x, y)
    ensures var p, q := Burst(x, n), Burst(y, n);
            SameMachine(p.vm, q.vm) && p.vm.mem == q.vm.mem && p.retired == q.retired && p.vm.program == q.vm.program
    decreases n
  {
    if n > 0 && !x.AtEnd() {
      if Step(x).retired != 0 {
        TwinBursts(Step(x).vm, Step(y).vm, n - 1);
      }
    }
  }

  /** The receiver w after Restore of r, where r carries v's state and v's page table. */
  predicate Resumes(v: Vm, w: Vm, r: VmSnapshot) {
    && w.program == v.program && w.fault == NO_FAULT
    && r.cpu == v.cpu && r.memory == v.mem.bytes && r.pageTable == v.mem.pageTable
  }

  lemma ResumeTransparent(v: Vm, w: Vm, r: VmSnapshot, m: nat)
    requires Coherent(v) && Resumes(v, w, r) && m >= 1
    ensures var p, q := RunSlice(RestoreFrom(w, r), m), RunSlice(v, m);
            SameMachine(p.vm, q.vm) && p.vm.mem == q.vm.mem && p.retired == q.retired
  {
    var x := RestoreFrom(w, r).(status := Running);
    if v.Done() {
      ReRun(v, x, m);
    } else {
      TwinBursts(x, v.(status := Running), m);
    }
  }

  /** Running a done machine again, from the state it ended in, ends it the same way at once. */
  lemma ReRun(v: Vm, x: Vm, m: nat)
    requires Coherent(v) && v.Done() && m >= 1
    requires Twins(x, v.(status := Running, fault := NO_FAULT))
    ensures SameMachine(Settle(Burst(x, m).vm), v) && Burst(x, m).retired == 0 && Burst(x, m).vm.mem == v.mem
  {
  }

  /** Checkpoint transparency: run k instructions, take a snapshot, serialize it, deserialize and restore
      it into a fresh VM with the same program, and run m more. With the sender's page table on the
      receiver's side the machine is the one that ran k + m in place. */
  lemma CheckpointTransparent(
    config: VmConfig, program: seq<Instruction>, k: nat, w: Vm, r: VmSnapshot, m: nat)
    requires m >= 1
    requires w == FreshVm(w.config, program)
    requires var v := RunSlice(FreshVm(config, program), k).vm;
             && Fits(TakeSnapshotOf(v)) && Decodes(PacketOf(TakeSnapshotOf(v)).payload, r)
             && r.pageTable == v.mem.pageTable
    ensures var p, q := RunSlice(RestoreFrom(w, r), m), RunSlice(FreshVm(config, program), k + m);
            && SameMachine(p.vm, q.vm)
            && RunSlice(FreshVm(config, program), k).retired + p.retired == q.retired
  {
    var built := FreshVm(config, program);
    var v := RunSlice(built, k).vm;
    PacketRoundTrip(TakeSnapshotOf(v), r);
    CoherentSlice(built, k);
    SliceShape(built, k);
    ResumeTransparent(v, w, r, m);
    SliceSplit(built, k, m);
  }

  // ---------------------------------------------------------------------------------------
  // In memory
  // ---------------------------------------------------------------------------------------

  /** Two machines that differ at most in their configuration, recorded fault and migration intent. */
  predicate Alike(x: Vm, y: Vm) {
    x.program == y.program && x.cpu == y.cpu && x.mem == y.mem && x.status == y.status
  }

  /** Such machines run alike; a fault on record is replaced only when they fault. */
  lemma {:induction false} AlikeBursts(x: Vm, y: Vm, n: nat)
    requires Alike(x, y) && x.status == Running
    ensures var p, q := Burst(x, n), Burst(y, n);
            && Alike(p.vm, q.vm) && p.retired == q.retired
            && (q.vm.status == Faulted ==> p.vm.fault == q.vm.fault)
            && (q.vm.status != Faulted ==> p.vm.fault == x.fault)
            && (q.vm.status == Blocked ==> p.vm.pending == q.vm.pending)
            && (q.vm.status != Blocked ==> p.vm.pending == x.pending)
    decreases n
  {
    hide EffectOf;
    if n > 0 && !x.AtEnd() {
      StepShape(x);
      StepShape(y);
      assert EffectOf(x.cpu, x.mem, x.program[x.cpu.pc]) == EffectOf(y.cpu, y.mem, y.program[y.cpu.pc]);
      if Step(x).retired != 0 {
        AlikeBursts(Step(x).vm, Step(y).vm, n - 1);
      }
    }
  }

  /** Snapshot and Restore in memory lose nothing: a VM restored from a snapshot of v into any VM with the
      same program, whatever that VM was doing, runs on exactly as v would, page table included, and so
      does a done v stay as it is. What Restore does not touch is the recorded fault of the receiver,
      which stays until it faults itself. */
  lemma SnapshotRestores(v: Vm, w: Vm, m: nat)
    requires Coherent(v) && w.program == v.program && m >= 1
    ensures var p, q := RunSlice(RestoreFrom(w, TakeSnapshotOf(v)), m), RunSlice(v, m);
            && p.retired == q.retired
            && p.vm.cpu == q.vm.cpu && p.vm.mem == q.vm.mem && p.vm.status == q.vm.status
            && p.vm.fault == (if q.vm.status == Faulted then q.vm.fault else w.fault)
            && p.vm.config == w.config
            && TakeSnapshotOf(v).name == v.config.name
  {
    hide Burst, EffectOf;
    var x := RestoreFrom(w, TakeSnapshotOf(v)).(status := Running);
    var y := v.(status := Running);
    AlikeBursts(x, y, m);
    BurstShape(x, m);
    BurstShape(y, m);
    if v.Done() {
      DoneBurst(x, v, m);
    }
  }

  /** A done machine that is run again ends where it was, with the fault that ended it, if one did. */
  lemma DoneBurst(x: Vm, v: Vm, m: nat)
    requires Coherent(v) && v.Done() && m >= 1 && Alike(x, v.(status := Running))
    ensures var p := Burst(x, m);
            && p.retired == 0 && p.vm.cpu == v.cpu && p.vm.mem == v.mem
            && Settle(p.vm).status == v.status
            && p.vm.fault == if v.status == Faulted then v.fault else x.fault
  {
  }

  // ---------------------------------------------------------------------------------------
  // With the empty page table a fresh snapshot brings
  // ---------------------------------------------------------------------------------------

  /** The page a memory instruction goes to. */
  predicate AccessesMapped(v: Vm)
    requires !v.AtEnd()
  {
    var inst := v.program[v.cpu.pc];
    (inst.opcode == Lw || inst.opcode == Sw) && ToUint32(inst.imm) / PAGE_SIZE in v.mem.pageTable
  }

  /** Within m instructions, v comes to a load or store on a page it has mapped. */
  predicate TouchesMapped(v: Vm, m: nat)
    decreases m
  {
    m > 0 && !v.AtEnd()
    && (AccessesMapped(v) || (Step(v).retired == 1 && TouchesMapped(Step(v).vm, m - 1)))
  }

  /** x is y without its page table. */
  predicate Unmapped(x: Vm, y: Vm) {
    && x.program == y.program && x.cpu == y.cpu
    && x.mem == PagedMemory(y.mem.bytes, map[])
    && x.status == Running && y.status == Running && x.fault == y.fault == NO_FAULT
  }

  /** Until such an access the two run in lockstep; at it, the unmapped machine takes a page fault. */
  lemma UnmappedStep(x: Vm, y: Vm)
    requires Unmapped(x, y) && !y.AtEnd()
    ensures AccessesMapped(y) ==>
              && Step(x) == Progress(x.(fault := PAGE_FAULT, status := Faulted), 0)
              && (Step(y).retired == 1 || Step(y).vm.fault == OUT_OF_RANGE)
    ensures !AccessesMapped(y) ==>
              && Step(x).retired == Step(y).retired
              && SameMachine(Step(x).vm, Step(y).vm)
              && (Step(x).retired == 1 ==> Unmapped(Step(x).vm, Step(y).vm))
  {
  }

  lemma {:induction false} UnmappedBursts(x: Vm, y: Vm, n: nat)
    requires Unmapped(x, y)
    ensures var p, q := Burst(x, n).vm, Burst(y, n).vm;
            && p.program == q.program
            && (!TouchesMapped(y, n) ==> SameMachine(p, q))
            && (TouchesMapped(y, n) ==> p.cpu != q.cpu || p.fault != q.fault)
            && (TouchesMapped(y, n) ==> p.status == Faulted && p.fault == PAGE_FAULT && !p.AtEnd())
    decreases n
  {
    hide Step, AccessesMapped;
    if n > 0 && !y.AtEnd() {
      UnmappedStep(x, y);
      StepShape(x);
      StepShape(y);
      if AccessesMapped(y) {
        if Step(y).retired == 1 {
          BurstShape(Step(y).vm, n - 1);
        }
      } else if Step(y).retired == 1 {
        UnmappedBursts(Step(x).vm, Step(y).vm, n - 1);
      }
    }
  }

  /** A done machine touches mapped memory only with the very access that faulted it. */
  lemma DoneTouches(v: Vm, m: nat)
    requires Coherent(v) && v.Done() && m >= 1
    ensures TouchesMapped(v, m) <==> TouchesMapped(v.(status := Running, fault := NO_FAULT), m)
    ensures Burst(v.(status := Running, fault := NO_FAULT), m).retired == 0
    ensures SameMachine(Settle(Burst(v.(status := Running, fault := NO_FAULT), m).vm), v)
  {
  }

  lemma {:induction false} TouchesIgnoresStatus(v: Vm, m: nat)
    ensures TouchesMapped(v.(status := Running), m) == TouchesMapped(v, m)
  {
    if m > 0 && !v.AtEnd() && Step(v).retired == 1 {
      assert Step(v.(status := Running)) == Step(v);
    }
  }

  /** Neither the packet nor the text file carries the page table, so a receiver that starts from a fresh
      snapshot has none. It then continues as the sender would have if and only if the next m instructions
      come to no load or store on a page the sender had mapped; otherwise it ends in a page fault. */
  lemma FreshReceiverIff(v: Vm, w: Vm, r: VmSnapshot, m: nat)
    requires Coherent(v) && m >= 1
    requires w.program == v.program && w.fault == NO_FAULT
    requires SameCarried(r, TakeSnapshotOf(v)) && r.pageTable == map[]
    ensures var p, q := RunSlice(RestoreFrom(w, r), m).vm, RunSlice(v, m).vm;
            && (SameMachine(p, q) <==> !TouchesMapped(v, m))
            && (TouchesMapped(v, m) ==> p.status == Faulted && p.fault == PAGE_FAULT)
  {
    var x := RestoreFrom(w, r).(status := Running);
    var y := v.(status := Running, fault := NO_FAULT);
    UnmappedBursts(x, y, m);
    if v.Done() {
      DoneTouches(v, m);
    } else {
      assert y == v.(status := Running);
      TouchesIgnoresStatus(v, m);
    }
  }

  /** For a snapshot read from the sender's packet. */
  lemma FreshReceiverByPacket(v: Vm, w: Vm, r: VmSnapshot, m: nat)
    requires Coherent(v) && m >= 1
    requires w.program == v.program && w.fault == NO_FAULT
    requires Fits(TakeSnapshotOf(v)) && Decodes(PacketOf(TakeSnapshotOf(v)).payload, r) && r.pageTable == map[]
    ensures SameMachine(RunSlice(RestoreFrom(w, r), m).vm, RunSlice(v, m).vm) <==> !TouchesMapped(v, m)
  {
    hide RunSlice, TouchesMapped, SameMachine;
    PacketRoundTrip(TakeSnapshotOf(v), r);
    FreshReceiverIff(v, w, r, m);
  }

  /** For a snapshot loaded from the text file, when the name survives that. */
  lemma FreshReceiverByText(v: Vm, w: Vm, initial: VmSnapshot, m: nat)
    requires Coherent(v) && m >= 1
    requires w.program == v.program && w.fault == NO_FAULT
    requires v.cpu.pc < TWO_64 && |v.mem.bytes| < TWO_64 && NEWLINE !in v.config.name
    requires initial.pageTable == map[]
    ensures var r := LoadedFrom(SavedText(TakeSnapshotOf(v)), initial);
            SameMachine(RunSlice(RestoreFrom(w, r), m).vm, RunSlice(v, m).vm) <==> !TouchesMapped(v, m)
  {
    hide RunSlice, TouchesMapped, SameMachine, LoadedFrom, SavedText;
    TextRoundTripIff(TakeSnapshotOf(v), initial);
    FreshReceiverIff(v, w, LoadedFrom(SavedText(TakeSnapshotOf(v)), initial), m);
  }

  /** A VM for which it fails: one page of memory and the program lw $0, 0, sent before it has run. The
      sender's own run ends in a HALT, the receiver's in a page fault. */
  lemma FreshReceiverFaults(config: VmConfig, program: seq<Instruction>)
    requires config.memoryBytes == PAGE_SIZE && |config.name| < TWO_32
    requires program == [Instruction(Lw, 0, 0, 0, 0, "")]
    ensures var v := FreshVm(config, program);
            var r := VmSnapshot(config.name, v.cpu, map[], v.mem.bytes);
            && Coherent(v) && Fits(TakeSnapshotOf(v)) && Decodes(PacketOf(TakeSnapshotOf(v)).payload, r)
            && var p, q := RunSlice(RestoreFrom(v, r), 1).vm, RunSlice(v, 1).vm;
               !SameMachine(p, q) && p.status == Faulted && p.fault == PAGE_FAULT && q.status == Halted
  {
    hide RunSlice, Payload;
    var v := FreshVm(config, program);
    var r := VmSnapshot(config.name, v.cpu, map[], v.mem.bytes);
    PayloadIgnoresTable(r, TakeSnapshotOf(v));
    FaultClassification(PAGE_SIZE, [], 0);
    assert TouchesMapped(v, 1);
    FreshReceiverIff(v, v, r, 1);
    LoadRetires(v);
  }

  lemma PayloadIgnoresTable(r: VmSnapshot, s: VmSnapshot)
    requires r == s.(pageTable := r.pageTable)
    ensures Payload(r) == Payload(s)
  {
  }

  lemma LoadRetires(v: Vm)
    requires v.status == Ready && |v.program| == 1 && v.cpu.pc == 0 && v.program[0].opcode == Lw
    requires LoadWord(v.mem, ToUint32(v.program[0].imm)).Granted?
    ensures RunSlice(v, 1).vm.status == Halted
  {
  }
}
