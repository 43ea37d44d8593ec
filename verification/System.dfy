/** The hypervisor as a transition system: one transition per turn of its loop. */
module System {
  import opened Words
  import opened Machine
  import opened Schedulers
  import opened Serializer
  import opened Migration
  import opened Metrics

  datatype Hypervisor = Hypervisor(vms: seq<Vm>, policy: Policy, stats: SchedulerStats, wire: seq<Exchange>)

  function Statuses(vms: seq<Vm>): (s: seq<VmStatus>)
    ensures |s| == |vms|
    ensures forall i | 0 <= i < |vms| :: s[i] == vms[i].status
  {
    seq(|vms|, i requires 0 <= i < |vms| => vms[i].status)
  }

  function Priorities(vms: seq<Vm>): (s: seq<int32>)
    ensures |s| == |vms|
    ensures forall i | 0 <= i < |vms| :: s[i] == vms[i].config.priority
  {
    seq(|vms|, i requires 0 <= i < |vms| => vms[i].config.priority)
  }

  predicate AllDone(vms: seq<Vm>) {
    forall i | 0 <= i < |vms| :: vms[i].Done()
  }

  /** A VM's slice, and the pre-copy migration that follows if it asked for one. */
  function Dispatch(v: Vm): Vm {
    var w := RunSlice(v, v.config.slice).vm;
    if w.pending.Some? then PreCopied(w).(pending := None) else w
  }

  function Record(stats: SchedulerStats, name: Name, retired: nat): SchedulerStats {
    SchedulerStats(Bump(stats.instructionsByVm, name, retired), Bump(stats.dispatchCountByVm, name, 1))
  }

  /** What dispatching v puts on the wire. */
  function Transmit(oracle: Oracle, wire: seq<Exchange>, v: Vm): seq<Exchange> {
    var w := RunSlice(v, v.config.slice).vm;
    if w.pending.Some?
    then Deliver(oracle, wire, w.pending.value, PacketOf(TakeSnapshotOf(PreCopied(w)))).log
    else wire
  }

  function Turn(h: Hypervisor): Choice {
    Pick(h.policy, Statuses(h.vms), Priorities(h.vms))
  }

  /** One turn of the loop; once every VM is done the loop has been left and nothing changes. */
  function Iterate(oracle: Oracle, h: Hypervisor): Hypervisor {
    if AllDone(h.vms) then h
    else
      var c := Turn(h);
      if c.index >= |h.vms| || h.vms[c.index].Done() then h.(policy := c.next)
      else
        var v := h.vms[c.index];
        Hypervisor(
          h.vms[c.index := Dispatch(v)], c.next,
          Record(h.stats, v.config.name, RunSlice(v, v.config.slice).retired),
          Transmit(oracle, h.wire, v))
  }

  function Iterations(oracle: Oracle, h: Hypervisor, k: nat): (r: Hypervisor)
    ensures |r.vms| == |h.vms|
    decreases k
  {
    if k == 0 then h else Iterations(oracle, Iterate(oracle, h), k - 1)
  }

  lemma {:induction false} IterationsSplit(oracle: Oracle, h: Hypervisor, a: nat, b: nat)
    ensures Iterations(oracle, h, a + b) == Iterations(oracle, Iterations(oracle, h, a), b)
    decreases a
  {
    if a > 0 {
      IterationsSplit(oracle, Iterate(oracle, h), a - 1, b);
    }
  }

  /** The VMs as they are added: no migration is pending. */
  ghost predicate NonePending(vms: seq<Vm>) {
    forall i | 0 <= i < |vms| :: vms[i].pending == None
  }

  // ---------------------------------------------------------------------------------------
  // One dispatch
  // ---------------------------------------------------------------------------------------

  /** A slice that was blocked by a MIGRATE leaves a VM no further slice can move. */
  lemma BlockedStays(v: Vm, n: nat, m: nat)
    requires m >= 1 && RunSlice(v, n).vm.status == Blocked && !v.Done()
    ensures RunSlice(RunSlice(v, n).vm, m) == Progress(RunSlice(v, n).vm, 0)
  {
    var start := v.(status := Running);
    BurstShape(start, n);
    BurstStopStable(start, n, m);
  }

  /** A slice sets the migration intent exactly when it ends blocked. */
  lemma {:induction false} BurstPending(v: Vm, n: nat)
    requires v.pending == None && v.status == Running
    ensures Burst(v, n).vm.pending.Some? <==> Burst(v, n).vm.status == Blocked
    decreases n
  {
    if n > 0 && !v.AtEnd() {
      StepShape(v);
      if Step(v).retired != 0 {
        BurstPending(Step(v).vm, n - 1);
      }
    }
  }

  /** When the hypervisor migrates a VM it is blocked at a MIGRATE, so the uncounted pre-copy rounds
      leave it where it is: a dispatch is the slice with the migration intent cleared. */
  lemma DispatchIsSlice(v: Vm)
    requires v.pending == None && !v.Done()
    ensures var w := RunSlice(v, v.config.slice).vm;
            && Dispatch(v) == w.(pending := None)
            && (w.pending.Some? <==> w.status == Blocked)
            && (w.pending.Some? ==> PreCopied(w) == w)
  {
    var start := v.(status := Running);
    BurstPending(start, v.config.slice);
    BurstShape(start, v.config.slice);
    if RunSlice(v, v.config.slice).vm.pending.Some? {
      BlockedStays(v, v.config.slice, ROUND_SLICE);
    }
  }

  /** Clearing the intent of a VM a slice has left does not change its solo run. */
  lemma SoloIgnoresIntent(v: Vm, n: nat)
    requires v.pending == None && !v.Done()
    ensures var w := RunSlice(v, n).vm;
            && Solo(w.(pending := None)) == Solo(w)
            && SoloRetired(w.(pending := None)) == SoloRetired(w)
  {
    var start := v.(status := Running);
    var w := RunSlice(v, n).vm;
    BurstPending(start, n);
    BurstShape(start, n);
    if w.pending.Some? {
      assert w.Remaining() >= 1;
      BlockedStays(v, n, w.Remaining());
      BlockedStep(v, n);
    }
  }

  /** The instruction a blocked VM sits on is the MIGRATE that blocked it. */
  lemma {:induction false} BurstBlockedStep(v: Vm, n: nat)
    requires v.status == Running && Burst(v, n).vm.status == Blocked
    ensures var w := Burst(v, n).vm;
            && !w.AtEnd() && w.program[w.cpu.pc].opcode == Migrate
            && w.pending == Some(w.program[w.cpu.pc].target)
    decreases n
  {
    if n > 0 && !v.AtEnd() {
      StepShape(v);
      if Step(v).retired != 0 {
        BurstBlockedStep(Step(v).vm, n - 1);
      }
    }
  }

  lemma BlockedStep(v: Vm, n: nat)
    requires !v.Done() && RunSlice(v, n).vm.status == Blocked
    ensures var w := RunSlice(v, n).vm;
            && !w.AtEnd() && w.program[w.cpu.pc].opcode == Migrate
            && w.pending == Some(w.program[w.cpu.pc].target)
  {
    BurstShape(v.(status := Running), n);
    BurstBlockedStep(v.(status := Running), n);
  }

  /** The solo result, its length and the rest of the program are invariants of dispatching. */
  lemma DispatchKeepsSolo(v: Vm)
    requires v.pending == None && !v.Done()
    ensures var w := Dispatch(v);
            && Solo(w) == Solo(v)
            && w.pending == None && w.config == v.config && w.program == v.program
            && RunSlice(v, v.config.slice).retired + SoloRetired(w) == SoloRetired(v)
            && w.cpu.pc == v.cpu.pc + RunSlice(v, v.config.slice).retired
            && w.status != Running
  {
    DispatchIsSlice(v);
    SoloIgnoresIntent(v, v.config.slice);
    SoloAfterSlice(v, v.config.slice);
    SliceShape(v, v.config.slice);
  }

  // ---------------------------------------------------------------------------------------
  // One turn
  // ---------------------------------------------------------------------------------------

  /** A turn leaves every VM alone but the one it dispatches. */
  lemma TurnTouchesOne(oracle: Oracle, h: Hypervisor, i: nat)
    requires NonePending(h.vms) && i < |h.vms|
    ensures var after := Iterate(oracle, h);
            && |after.vms| == |h.vms| && NonePending(after.vms)
            && (after.vms[i] == h.vms[i]
                || (!h.vms[i].Done() && Turn(h).index == i && after.vms[i] == Dispatch(h.vms[i])))
            && (!h.vms[i].Done() && Turn(h).index == i ==> after.vms[i] == Dispatch(h.vms[i]))
  {
    var c := Turn(h);
    if !AllDone(h.vms) && c.index < |h.vms| && !h.vms[c.index].Done() {
      DispatchKeepsSolo(h.vms[c.index]);
    }
  }

  // ---------------------------------------------------------------------------------------
  // Isolation: every VM ends as if it had run alone
  // ---------------------------------------------------------------------------------------

  lemma {:induction false} SoloInvariant(oracle: Oracle, h: Hypervisor, k: nat, i: nat)
    requires NonePending(h.vms) && i < |h.vms|
    ensures var after := Iterations(oracle, h, k);
            && |after.vms| == |h.vms| && NonePending(after.vms)
            && Solo(after.vms[i]) == Solo(h.vms[i])
            && after.vms[i].config == h.vms[i].config && after.vms[i].program == h.vms[i].program
            && (h.vms[i].Done() ==> after.vms[i] == h.vms[i])
    decreases k
  {
    if k > 0 {
      TurnTouchesOne(oracle, h, i);
      if !h.vms[i].Done() {
        DispatchKeepsSolo(h.vms[i]);
      }
      SoloInvariant(oracle, Iterate(oracle, h), k - 1, i);
    }
  }

  /** Isolation: whatever the policy, the transport and the other VMs, a VM that is done has exactly
      the state of running it alone to completion. */
  lemma Isolation(oracle: Oracle, h: Hypervisor, k: nat, i: nat)
    requires NonePending(h.vms) && i < |h.vms|
    requires Iterations(oracle, h, k).vms[i].Done()
    ensures Iterations(oracle, h, k).vms[i] == Solo(h.vms[i])
  {
    SoloInvariant(oracle, h, k, i);
  }

  /** Scheduler independence: two runs over the same VMs that both end agree on every VM, whatever
      their policies and transports. */
  lemma SchedulerIndependence(o1: Oracle, h1: Hypervisor, k1: nat, o2: Oracle, h2: Hypervisor, k2: nat)
    requires h1.vms == h2.vms && NonePending(h1.vms)
    requires AllDone(Iterations(o1, h1, k1).vms) && AllDone(Iterations(o2, h2, k2).vms)
    ensures Iterations(o1, h1, k1).vms == Iterations(o2, h2, k2).vms
  {
    forall i: nat | i < |h1.vms|
      ensures Iterations(o1, h1, k1).vms[i] == Iterations(o2, h2, k2).vms[i]
    {
      Isolation(o1, h1, k1, i);
      Isolation(o2, h2, k2, i);
    }
  }

  // ---------------------------------------------------------------------------------------
  // What goes over the wire
  // ---------------------------------------------------------------------------------------

  /** The packet carries the state in which the solo run of one of the VMs is stuck at a MIGRATE. */
  ghost predicate CarriesStuckVm(packet: MigrationPacket, vms: seq<Vm>) {
    exists i | 0 <= i < |vms| ::
      && Solo(vms[i]).status == Blocked
      && packet == PacketOf(TakeSnapshotOf(Solo(vms[i])))
  }

  ghost predicate WireSound(wire: seq<Exchange>, from: nat, vms: seq<Vm>) {
    forall k | from <= k < |wire| && wire[k].event.Send? :: CarriesStuckVm(wire[k].event.packet, vms)
  }

  lemma DispatchTransmits(oracle: Oracle, wire: seq<Exchange>, v: Vm)
    requires v.pending == None && !v.Done()
    ensures wire <= Transmit(oracle, wire, v)
    ensures forall k | |wire| <= k < |Transmit(oracle, wire, v)| && Transmit(oracle, wire, v)[k].event.Send? ::
              && Solo(v).status == Blocked
              && Transmit(oracle, wire, v)[k].event.packet == PacketOf(TakeSnapshotOf(Solo(v)))
  {
    hide Payload, Burst, Attempts;
    var w := RunSlice(v, v.config.slice).vm;
    DispatchIsSlice(v);
    if w.pending.Some? {
      SoloAfterSlice(v, v.config.slice);
      BlockedStep(v, v.config.slice);
      BlockedStays(v, v.config.slice, w.Remaining());
      assert Solo(v) == w.(pending := None);
      var packet := PacketOf(TakeSnapshotOf(w));
      assert packet == PacketOf(TakeSnapshotOf(Solo(v)));
      DeliveryDiscipline(oracle, wire, w.pending.value, packet);
      var d := Deliver(oracle, wire, w.pending.value, packet);
      forall k | |wire| <= k < |d.log| && d.log[k].event.Send?
        ensures d.log[k].event.packet == packet
      {
        assert d.log[k] == d.log[|wire|..][k - |wire|];
        if k > |wire| {
          assert d.log[k] == d.log[|wire|..][1..][k - |wire| - 1];
        }
      }
    }
  }

  /** A dispatch goes to the wire exactly when its slice ends at a MIGRATE, and then first greets the
      target that instruction names. */
  lemma DispatchMigratesIff(oracle: Oracle, wire: seq<Exchange>, v: Vm)
    requires v.pending == None && !v.Done()
    ensures var w := RunSlice(v, v.config.slice).vm;
            var after := Transmit(oracle, wire, v);
            && (after != wire <==> w.status == Blocked)
            && (w.status == Blocked ==>
                  && !w.AtEnd() && w.program[w.cpu.pc].opcode == Migrate
                  && |wire| < |after|
                  && after[|wire|].event == Handshake(w.program[w.cpu.pc].target, 1))
  {
    var w := RunSlice(v, v.config.slice).vm;
    DispatchIsSlice(v);
    if w.status == Blocked {
      BlockedStep(v, v.config.slice);
      var packet := PacketOf(TakeSnapshotOf(PreCopied(w)));
      DeliveryDiscipline(oracle, wire, w.pending.value, packet);
      var after := Deliver(oracle, wire, w.pending.value, packet).log;
      assert after[|wire|] == after[|wire|..][0];
    }
  }

  /** A turn's own packets come from the VM it dispatches, and it keeps every solo result. */
  lemma TurnTransmits(oracle: Oracle, h: Hypervisor)
    requires NonePending(h.vms)
    ensures var next := Iterate(oracle, h);
            && h.wire <= next.wire && WireSound(next.wire, |h.wire|, h.vms)
            && |next.vms| == |h.vms| && NonePending(next.vms)
            && forall i: nat | i < |h.vms| :: Solo(next.vms[i]) == Solo(h.vms[i])
  {
    var c := Turn(h);
    if !AllDone(h.vms) && c.index < |h.vms| && !h.vms[c.index].Done() {
      DispatchKeepsSolo(h.vms[c.index]);
      DispatchTransmits(oracle, h.wire, h.vms[c.index]);
    }
  }

  lemma CarriesStuckVmBack(packet: MigrationPacket, next: seq<Vm>, vms: seq<Vm>)
    requires |next| == |vms| && forall i: nat | i < |vms| :: Solo(next[i]) == Solo(vms[i])
    requires CarriesStuckVm(packet, next)
    ensures CarriesStuckVm(packet, vms)
  {
  }

  /** Every packet a run ever sends is the packet of some VM's stuck state, so that repeated migrations
      of a VM all send the same state, and a receiver restores what the solo run would leave. */
  lemma {:induction false} WireCarriesSolo(oracle: Oracle, h: Hypervisor, k: nat)
    requires NonePending(h.vms)
    ensures var after := Iterations(oracle, h, k);
            h.wire <= after.wire && WireSound(after.wire, |h.wire|, h.vms)
    decreases k
  {
    if k > 0 {
      var next := Iterate(oracle, h);
      TurnTransmits(oracle, h);
      WireCarriesSolo(oracle, next, k - 1);
      var wire := Iterations(oracle, h, k).wire;
      forall j | |h.wire| <= j < |wire| && wire[j].event.Send?
        ensures CarriesStuckVm(wire[j].event.packet, h.vms)
      {
        if j < |next.wire| {
          assert wire[j] == next.wire[j];
        } else {
          CarriesStuckVmBack(wire[j].event.packet, next.vms, h.vms);
        }
      }
    }
  }

  lemma SoloKeepsConfig(v: Vm)
    ensures Solo(v).config == v.config
  {
    SliceShape(v, v.Remaining());
  }

  /** Whoever reads a packet sent in a run gets the name, cpu and memory of a VM's solo run, stuck at its
      MIGRATE. */
  lemma ReceiverGetsSolo(oracle: Oracle, h: Hypervisor, k: nat, j: nat, r: VmSnapshot)
    requires NonePending(h.vms)
    requires var wire := Iterations(oracle, h, k).wire;
             |h.wire| <= j < |wire| && wire[j].event.Send? && Decodes(wire[j].event.packet.payload, r)
    requires forall i | 0 <= i < |h.vms| :: Fits(TakeSnapshotOf(Solo(h.vms[i])))
    ensures exists i | 0 <= i < |h.vms| ::
              && Solo(h.vms[i]).status == Blocked && SameCarried(r, TakeSnapshotOf(Solo(h.vms[i])))
              && r.name == h.vms[i].config.name
              && r.cpu == Solo(h.vms[i]).cpu && r.memory == Solo(h.vms[i]).mem.bytes
  {
    hide Iterations, Solo, Payload;
    WireCarriesSolo(oracle, h, k);
    var packet := Iterations(oracle, h, k).wire[j].event.packet;
    assert CarriesStuckVm(packet, h.vms);
    var i :| 0 <= i < |h.vms| && Solo(h.vms[i]).status == Blocked
             && packet == PacketOf(TakeSnapshotOf(Solo(h.vms[i])));
    PacketRoundTrip(TakeSnapshotOf(Solo(h.vms[i])), r);
    SoloKeepsConfig(h.vms[i]);
  }
}
