/** Migration over whole runs: when the transport is used at all, and what becomes of a migrated VM. */
module Transfers {
  import opened Words
  import opened Machine
  import opened Schedulers
  import opened Fairness
  import opened Serializer
  import opened Migration
  import opened Metrics
  import opened System
  import opened Termination

  // ---------------------------------------------------------------------------------------
  // Whether a run migrates anything
  // ---------------------------------------------------------------------------------------

  /** A live VM that runs into a MIGRATE if it is dispatched often enough. */
  predicate WillMigrate(v: Vm) {
    !v.Done() && v.config.slice >= 1 && ReachesMigrate(v)
  }

  /** A slice that does not block a VM leaves what it will come to. */
  lemma DispatchKeepsFate(v: Vm)
    requires v.pending == None && !v.Done()
    ensures RunSlice(v, v.config.slice).vm.status == Blocked ==> WillMigrate(v)
    ensures RunSlice(v, v.config.slice).vm.status != Blocked ==> (WillMigrate(Dispatch(v)) <==> WillMigrate(v))
  {
    hide Burst, ReachesMigrate;
    var w := RunSlice(v, v.config.slice).vm;
    DispatchIsSlice(v);
    DispatchKeepsSolo(v);
    SoloBlocksIff(v);
    if w.status == Blocked {
      BlockedStep(v, v.config.slice);
      BlockedAtOnce(w.(pending := None));
      SoloBlocksIff(w.(pending := None));
      PositiveSlice(v);
    } else if w.Done() {
      DoneSolo(Dispatch(v));
    } else {
      SoloBlocksIff(Dispatch(v));
    }
  }

  /** A VM that sits on a MIGRATE comes to one. */
  lemma BlockedAtOnce(v: Vm)
    requires !v.AtEnd() && v.program[v.cpu.pc].opcode == Opcode.Migrate
    ensures ReachesMigrate(v)
  {
  }

  lemma PositiveSlice(v: Vm)
    requires !v.Done() && RunSlice(v, v.config.slice).vm.status == Blocked
    ensures v.config.slice >= 1
  {
  }

  /** A turn of a system in which no VM will migrate leaves the wire alone, and the system such. */
  lemma QuietTurn(oracle: Oracle, h: Hypervisor)
    requires NonePending(h.vms) && forall i: nat | i < |h.vms| :: !WillMigrate(h.vms[i])
    ensures var next := Iterate(oracle, h);
            && next.wire == h.wire && NonePending(next.vms)
            && forall i: nat | i < |next.vms| :: !WillMigrate(next.vms[i])
  {
    hide WillMigrate, RunSlice, Dispatch, Transmit;
    var c := Turn(h).index;
    if Live(Statuses(h.vms), c) {
      var v := h.vms[c];
      DispatchKeepsFate(v);
      DispatchMigratesIff(oracle, h.wire, v);
      DispatchKeepsSolo(v);
    }
  }

  lemma {:induction false} QuietRun(oracle: Oracle, h: Hypervisor, k: nat)
    requires NonePending(h.vms) && forall i: nat | i < |h.vms| :: !WillMigrate(h.vms[i])
    ensures Iterations(oracle, h, k).wire == h.wire
    decreases k
  {
    hide Iterate, WillMigrate;
    if k > 0 {
      QuietTurn(oracle, h);
      QuietRun(oracle, Iterate(oracle, h), k - 1);
    }
  }

  /** Under a fair policy a VM that will migrate gets to use the transport, whatever the others do. */
  lemma {:induction false} FairRunMigrates(oracle: Oracle, h: Hypervisor, n: nat, i: nat) returns (k: nat)
    requires FairSystem(h, n) && i < n && WillMigrate(h.vms[i])
    ensures Iterations(oracle, h, k).wire != h.wire
    decreases h.vms[i].Remaining(), Rank(h.policy, i, n)
  {
    hide Iterate, Iterations, Dispatch, Transmit, RunSlice, Rank;
    var next := Iterate(oracle, h);
    FairTurn(oracle, h, n, i);
    OneTurn(oracle, h);
    if next.wire != h.wire {
      k := 1;
    } else {
      if Turn(h).index == i {
        LiveMigrant(oracle, h, i);
      }
      var m := FairRunMigrates(oracle, next, n, i);
      k := m + 1;
      TurnFirst(oracle, h, m);
    }
  }

  lemma OneTurn(oracle: Oracle, h: Hypervisor)
    ensures Iterations(oracle, h, 1) == Iterate(oracle, h)
  {
    hide Iterate;
    assert Iterations(oracle, Iterate(oracle, h), 0) == Iterate(oracle, h);
  }

  lemma TurnFirst(oracle: Oracle, h: Hypervisor, k: nat)
    ensures Iterations(oracle, h, k + 1) == Iterations(oracle, Iterate(oracle, h), k)
  {
    hide Iterate;
  }

  /** A dispatch of such a VM either uses the transport or brings it closer to its MIGRATE. */
  lemma LiveMigrant(oracle: Oracle, h: Hypervisor, i: nat)
    requires NonePending(h.vms) && i < |h.vms| && WillMigrate(h.vms[i]) && Turn(h).index == i
    ensures var next := Iterate(oracle, h);
            next.wire != h.wire
            || (|next.vms| == |h.vms| && WillMigrate(next.vms[i])
                && next.vms[i].Remaining() < h.vms[i].Remaining())
  {
    hide Transmit;
    var v := h.vms[i];
    DispatchMigratesIff(oracle, h.wire, v);
    DispatchKeepsFate(v);
    DispatchIsSlice(v);
    SliceShape(v, v.config.slice);
    BurstShape(v.(status := Running), v.config.slice);
  }

  /** Under round robin and the feedback queues a run uses the transport at some point if and only if some
      live VM with a positive slice comes to a MIGRATE. */
  lemma TransportUsedIff(oracle: Oracle, h: Hypervisor)
    requires NonePending(h.vms) && Fair(h.policy) && PolicySound(h.policy, Statuses(h.vms))
    ensures (exists k: nat :: Iterations(oracle, h, k).wire != h.wire)
            <==> (exists i: nat | i < |h.vms| :: WillMigrate(h.vms[i]))
  {
    hide Iterations, WillMigrate;
    if i: nat :| i < |h.vms| && WillMigrate(h.vms[i]) {
      var k := FairRunMigrates(oracle, h, |h.vms|, i);
    } else {
      forall k: nat
        ensures Iterations(oracle, h, k).wire == h.wire
      {
        QuietRun(oracle, h, k);
      }
    }
  }

  /** Under every policy, a run that can end never uses the transport. */
  lemma TerminatingRunIsQuiet(oracle: Oracle, h: Hypervisor, k: nat)
    requires NonePending(h.vms) && Terminating(h)
    ensures Iterations(oracle, h, k).wire == h.wire
  {
    forall i: nat | i < |h.vms|
      ensures !WillMigrate(h.vms[i])
    {
      assert WillFinish(h.policy, i, h.vms[i]);
    }
    QuietRun(oracle, h, k);
  }

  // ---------------------------------------------------------------------------------------
  // After the transfer
  // ---------------------------------------------------------------------------------------

  /** A receiver of any kind with this program, once it has restored r, retires nothing in any slice: it
      blocks again and asks for the migration it has just been through. */
  ghost predicate StuckAtMigrate(program: seq<Instruction>, r: VmSnapshot) {
    && r.cpu.pc < |program| && program[r.cpu.pc].opcode == Opcode.Migrate
    && forall w: Vm, m: nat | w.program == program && m >= 1 ::
         RunSlice(RestoreFrom(w, r), m)
         == Progress(RestoreFrom(w, r).(status := Blocked, pending := Some(program[r.cpu.pc].target)), 0)
  }

  lemma StuckSnapshot(v: Vm, r: VmSnapshot)
    requires Solo(v).status == Blocked && SameCarried(r, TakeSnapshotOf(Solo(v)))
    ensures StuckAtMigrate(v.program, r)
  {
    hide Burst;
    BlockedStep(v, v.Remaining());
    SoloEnd(v);
    forall w: Vm, m: nat | w.program == v.program && m >= 1
      ensures RunSlice(RestoreFrom(w, r), m)
           == Progress(RestoreFrom(w, r).(status := Blocked, pending := Some(w.program[r.cpu.pc].target)), 0)
    {
      SliceAtMigrate(RestoreFrom(w, r), m);
    }
  }

  lemma SliceAtMigrate(v: Vm, m: nat)
    requires m >= 1 && v.status == Ready && !v.AtEnd() && v.program[v.cpu.pc].opcode == Opcode.Migrate
    ensures RunSlice(v, m) == Progress(v.(status := Blocked, pending := Some(v.program[v.cpu.pc].target)), 0)
  {
  }

  /** A migrated VM never gets on: whoever reads a packet sent in a run and restores it into a VM with the
      same program sits on the same MIGRATE for good, whatever page table it brings. */
  lemma MigratedVmIsStuck(oracle: Oracle, h: Hypervisor, k: nat, j: nat, r: VmSnapshot)
    requires NonePending(h.vms)
    requires var wire := Iterations(oracle, h, k).wire;
             |h.wire| <= j < |wire| && wire[j].event.Send? && Decodes(wire[j].event.packet.payload, r)
    requires forall i | 0 <= i < |h.vms| :: Fits(TakeSnapshotOf(Solo(h.vms[i])))
    ensures exists i | 0 <= i < |h.vms| ::
              SameCarried(r, TakeSnapshotOf(Solo(h.vms[i]))) && StuckAtMigrate(h.vms[i].program, r)
  {
    hide Iterations, Solo, StuckAtMigrate;
    ReceiverGetsSolo(oracle, h, k, j, r);
    var i :| 0 <= i < |h.vms| && Solo(h.vms[i]).status == Blocked
             && SameCarried(r, TakeSnapshotOf(Solo(h.vms[i])));
    StuckSnapshot(h.vms[i], r);
  }
}
