/** The hypervisor object: it owns the VMs and runs the loop in place. */
module Core {
  import opened Words
  import opened Machine
  import opened Schedulers
  import opened Fairness
  import opened Serializer
  import opened Migration
  import opened Metrics
  import opened System
  import opened Termination

  /** A turn whose pick is out of range or done only moves the policy. */
  lemma IdleTurn(oracle: Oracle, h: Hypervisor, index: nat, next: Policy)
    requires !AllDone(h.vms) && Choice(index, next) == Pick(h.policy, Statuses(h.vms), Priorities(h.vms))
    requires index >= |h.vms| || h.vms[index].Done()
    ensures Iterate(oracle, h) == h.(policy := next)
  {
  }

  /** A turn whose pick is live dispatches it. */
  lemma BusyTurn(oracle: Oracle, h: Hypervisor, index: nat, next: Policy)
    requires !AllDone(h.vms) && Choice(index, next) == Pick(h.policy, Statuses(h.vms), Priorities(h.vms))
    requires index < |h.vms| && !h.vms[index].Done()
    ensures var v := h.vms[index];
            Iterate(oracle, h) ==
              Hypervisor(h.vms[index := Dispatch(v)], next,
                         Record(h.stats, v.config.name, RunSlice(v, v.config.slice).retired),
                         Transmit(oracle, h.wire, v))
  {
  }

  lemma NoTurns(oracle: Oracle, h: Hypervisor)
    ensures Iterations(oracle, h, 0) == h
  {
  }

  lemma DoneTurn(oracle: Oracle, h: Hypervisor)
    requires AllDone(h.vms)
    ensures Iterate(oracle, h) == h
  {
  }

  /** One more turn. */
  lemma {:induction false} OneMoreTurn(oracle: Oracle, h: Hypervisor, k: nat)
    ensures Iterations(oracle, h, k + 1) == Iterate(oracle, Iterations(oracle, h, k))
    decreases k
  {
    hide Iterate;
    if k == 0 {
      assert Iterations(oracle, Iterate(oracle, h), 0) == Iterate(oracle, h);
    } else {
      OneMoreTurn(oracle, Iterate(oracle, h), k - 1);
    }
  }

  /** Once every VM is done, further turns change nothing. */
  lemma NoMoreTurns(oracle: Oracle, h: Hypervisor, k: nat, limit: nat)
    requires k <= limit && AllDone(Iterations(oracle, h, k).vms)
    ensures Iterations(oracle, h, limit) == Iterations(oracle, h, k)
  {
    IterationsSplit(oracle, h, k, limit - k);
    Stutters(oracle, Iterations(oracle, h, k), limit - k);
  }

  /** A slice with its bookkeeping, and the migration that follows it. */
  method RunCounted(vm: VirtualMachine, transport: Transport, metrics: MetricsTracer)
    requires vm.Valid()
    modifies vm, vm.memory, transport, metrics
    ensures vm.Valid()
    ensures var v := old(vm.State());
            && vm.State() == Dispatch(v)
            && metrics.stats == Record(old(metrics.stats), v.config.name, RunSlice(v, v.config.slice).retired)
            && transport.log == Transmit(transport.oracle, old(transport.log), v)
  {
    hide RunSlice, Deliver, PacketOf, TakeSnapshotOf, PreCopied, Bump;
    metrics.RecordDispatch(vm.config.name);
    var retired := vm.RunForSlice(vm.config.slice);
    metrics.RecordInstructions(vm.config.name, retired);
    if vm.pendingMigrationTarget.Some? {
      var target := vm.pendingMigrationTarget.value;
      var error := PreCopyMigrate(transport, vm, target);
      vm.ClearMigrationIntent();
    }
  }

  class HypervisorCore {
    var vms: seq<VirtualMachine>
    const scheduler: IScheduler
    const transport: Transport
    const metrics: MetricsTracer

    /** Every VM object and every VM memory belongs to one VM only. */
    ghost predicate Valid()
      reads this, vms, set v | v in vms :: v.memory
    {
      && (forall i | 0 <= i < |vms| :: vms[i].Valid())
      && (forall i, j | 0 <= i < j < |vms| :: vms[i] != vms[j] && vms[i].memory != vms[j].memory)
      && VmRepr() !! scheduler.Repr() && VmRepr() !! {this, transport, metrics}
      && scheduler.Repr() !! {this, transport, metrics}
    }

    ghost function VmRepr(): set<object>
      reads this
    {
      (set v: VirtualMachine | v in vms :: v as object) + (set v: VirtualMachine | v in vms :: v.memory as object)
    }

    /** The VMs as values. */
    ghost function VmStates(): (s: seq<Vm>)
      reads this, vms, set v | v in vms :: v.memory
      ensures |s| == |vms|
      ensures forall i | 0 <= i < |vms| :: s[i] == vms[i].State()
    {
      seq(|vms|, i requires 0 <= i < |vms| reads this, vms, set v | v in vms :: v.memory => vms[i].State())
    }

    ghost function State(): Hypervisor
      reads this, vms, set v | v in vms :: v.memory
      reads scheduler.Repr(), transport, metrics
    {
      Hypervisor(VmStates(), scheduler.State(), metrics.stats, transport.log)
    }

    constructor (scheduler: IScheduler, transport: Transport)
      ensures Valid() && vms == []
      ensures this.scheduler == scheduler && this.transport == transport && fresh(metrics)
      ensures State() == Hypervisor([], scheduler.State(), SchedulerStats(map[], map[]), transport.log)
    {
      this.scheduler := scheduler;
      this.transport := transport;
      vms := [];
      metrics := new MetricsTracer();
    }

    method AddVm(vm: VirtualMachine)
      requires Valid() && vm.Valid()
      requires vm !in vms && forall v | v in vms :: v.memory != vm.memory
      modifies this`vms
      ensures Valid() && vms == old(vms) + [vm]
      ensures State() == old(State()).(vms := old(VmStates()) + [vm.State()])
    {
      vms := vms + [vm];
    }

    /** The status and priority vectors handed to the scheduler, and whether every VM is done. */
    method Survey() returns (allDone: bool, statuses: seq<VmStatus>, priorities: seq<int32>)
      requires Valid()
      ensures statuses == Statuses(VmStates()) && priorities == Priorities(VmStates())
      ensures allDone <==> AllDone(VmStates())
      ensures vms == [] ==> allDone
    {
      allDone := true;
      statuses := [];
      priorities := [];
      for i := 0 to |vms|
        invariant statuses == Statuses(VmStates())[..i]
        invariant priorities == Priorities(VmStates())[..i]
        invariant allDone <==> forall j | 0 <= j < i :: VmStates()[j].Done()
      {
        statuses := statuses + [vms[i].status];
        priorities := priorities + [vms[i].config.priority];
        if vms[i].status != Halted && vms[i].status != Faulted {
          allDone := false;
        }
      }
    }

    /** One turn of the loop; it reports whether the loop is left instead. */
    method TakeTurn() returns (allDone: bool)
      requires Valid()
      modifies VmRepr(), scheduler.Repr(), transport, metrics
      ensures Valid() && vms == old(vms)
      ensures allDone <==> old(AllDone(VmStates()))
      ensures State() == Iterate(transport.oracle, old(State()))
    {
      hide Iterate, AllDone, Statuses, Priorities, HypervisorCore.VmStates;
      var statuses, priorities;
      allDone, statuses, priorities := Survey();
      if allDone || |vms| == 0 {
        DoneTurn(transport.oracle, State());
        return true;
      }
      PickAndDispatch(statuses, priorities);
    }

    /** The scheduler's pick, which touches nothing but the scheduler. */
    method AskScheduler(statuses: seq<VmStatus>, priorities: seq<int32>) returns (index: nat)
      requires Valid()
      modifies scheduler.Repr()
      ensures Valid() && VmStates() == old(VmStates())
      ensures Choice(index, scheduler.State()) == Pick(old(scheduler.State()), statuses, priorities)
    {
      hide Pick;
      index := scheduler.PickNext(statuses, priorities);
    }

    /** The rest of a turn, once the scheduler is to be asked. */
    method PickAndDispatch(statuses: seq<VmStatus>, priorities: seq<int32>)
      requires Valid() && !AllDone(VmStates())
      requires statuses == Statuses(VmStates()) && priorities == Priorities(VmStates())
      modifies VmRepr(), scheduler.Repr(), transport, metrics
      ensures Valid() && vms == old(vms)
      ensures State() == Iterate(transport.oracle, old(State()))
    {
      hide Iterate, Pick, Dispatch, Transmit, Record, RunSlice, AllDone, Statuses, Priorities, HypervisorCore.VmStates;
      ghost var before := State();
      var index := AskScheduler(statuses, priorities);
      ghost var next := scheduler.State();
      if index >= |vms| || vms[index].status == Halted || vms[index].status == Faulted {
        IdleTurn(transport.oracle, before, index, next);
        return;
      }
      DispatchVm(index);
      assert scheduler.State() == next;
      BusyTurn(transport.oracle, before, index, next);
    }

    /** Runs one VM for its slice, counts it, and migrates it if it asked for that. */
    method DispatchVm(index: nat)
      requires Valid() && index < |vms|
      modifies VmRepr(), transport, metrics
      ensures Valid()
      ensures var v := old(vms[index].State());
              && VmStates() == old(VmStates())[index := Dispatch(v)]
              && metrics.stats == Record(old(metrics.stats), v.config.name, RunSlice(v, v.config.slice).retired)
              && transport.log == Transmit(transport.oracle, old(transport.log), v)
    {
      hide RunSlice, Dispatch, Transmit, Record;
      ghost var others := VmStates();
      RunCounted(vms[index], transport, metrics);
      assert forall j | 0 <= j < |vms| && j != index :: vms[j].State() == others[j];
    }

    /** The first turns of the loop, for any system, whether its loop ends or not. */
    method RunTurns(limit: nat) returns (ended: bool)
      requires Valid()
      modifies VmRepr(), scheduler.Repr(), transport, metrics
      ensures Valid() && vms == old(vms)
      ensures State() == Iterations(transport.oracle, old(State()), limit)
      ensures ended ==> AllDone(VmStates())
      ensures !ended ==> forall k: nat | k < limit :: !AllDone(Iterations(transport.oracle, old(State()), k).vms)
    {
      hide Iterate, Iterations, AllDone;
      ghost var start := State();
      NoTurns(transport.oracle, start);
      for turns := 0 to limit
        invariant Valid() && vms == old(vms)
        invariant State() == Iterations(transport.oracle, start, turns)
        invariant forall k: nat | k < turns :: !AllDone(Iterations(transport.oracle, start, k).vms)
      {
        var allDone := TakeTurn();
        OneMoreTurn(transport.oracle, start, turns);
        if allDone {
          DoneTurn(transport.oracle, Iterations(transport.oracle, start, turns));
          NoMoreTurns(transport.oracle, start, turns, limit);
          return true;
        }
      }
      return false;
    }

    /** The whole loop, for every system whose loop ends. It makes as few turns as end it; from VMs without a
        pending migration that is exactly the dispatches needed, and every VM has its solo result. */
    method Run() returns (ghost turns: nat)
      requires Valid()
      requires exists k: nat :: AllDone(Iterations(transport.oracle, State(), k).vms)
      modifies VmRepr(), scheduler.Repr(), transport, metrics
      ensures Valid() && vms == old(vms)
      ensures AllDone(VmStates())
      ensures State() == Iterations(transport.oracle, old(State()), turns)
      ensures forall k: nat | k < turns :: !AllDone(Iterations(transport.oracle, old(State()), k).vms)
      ensures old(NonePending(VmStates()) && PolicySound(scheduler.State(), Statuses(VmStates()))) ==>
                && turns == old(TotalNeeded(VmStates()))
                && forall i | 0 <= i < |vms| :: VmStates()[i] == Solo(old(VmStates())[i])
    {
      hide Iterate, Iterations, TotalNeeded, PolicySound, Solo, Statuses, AllDone;
      ghost var start := State();
      ghost var last: nat :| AllDone(Iterations(transport.oracle, start, last).vms);
      NoTurns(transport.oracle, start);
      turns := 0;
      while true
        invariant Valid() && vms == old(vms)
        invariant turns <= last
        invariant State() == Iterations(transport.oracle, start, turns)
        invariant forall k: nat | k < turns :: !AllDone(Iterations(transport.oracle, start, k).vms)
        decreases last - turns
      {
        OneMoreTurn(transport.oracle, start, turns);
        var allDone := TakeTurn();
        if allDone {
          DoneTurn(transport.oracle, Iterations(transport.oracle, start, turns));
          break;
        }
        turns := turns + 1;
      }
      if NonePending(start.vms) && PolicySound(start.policy, Statuses(start.vms)) {
        FirstEnd(transport.oracle, start, turns);
      }
    }
  }

  /** When the loop has ended every VM has its solo result. */
  lemma SoloResults(oracle: Oracle, h: Hypervisor, k: nat)
    requires NonePending(h.vms) && AllDone(Iterations(oracle, h, k).vms)
    ensures forall i: nat | i < |h.vms| :: Iterations(oracle, h, k).vms[i] == Solo(h.vms[i])
  {
    forall i: nat | i < |h.vms|
      ensures Iterations(oracle, h, k).vms[i] == Solo(h.vms[i])
    {
      Isolation(oracle, h, k, i);
    }
  }

  /** The first turn count at which every VM is done is the number of dispatches needed. */
  lemma FirstEnd(oracle: Oracle, h: Hypervisor, turns: nat)
    requires NonePending(h.vms) && PolicySound(h.policy, Statuses(h.vms))
    requires AllDone(Iterations(oracle, h, turns).vms)
    requires forall k: nat | k < turns :: !AllDone(Iterations(oracle, h, k).vms)
    ensures turns == TotalNeeded(h.vms)
    ensures forall i: nat | i < |h.vms| :: Iterations(oracle, h, turns).vms[i] == Solo(h.vms[i])
  {
    hide Iterations, AllDone, TotalNeeded, PolicySound, Terminating, Solo;
    RunEndsIff(oracle, h);
    ExactTurns(oracle, h, turns);
    ExactTurns(oracle, h, TotalNeeded(h.vms));
    SoloResults(oracle, h, turns);
  }
}
