/** Sending a VM away: the transport, the retry protocol and the pre-copy service; and the counters. */
module Migration {
  import opened Words
  import opened Machine
  import opened Serializer

  // ---------------------------------------------------------------------------------------
  // The transport
  // ---------------------------------------------------------------------------------------

  datatype Event = Handshake(target: string, version: uint32) | Send(packet: MigrationPacket)

  /** One call on the transport, with the answer it gave. */
  datatype Exchange = Exchange(event: Event, ok: bool)

  /** An arbitrary transport: its answer may depend on everything that was asked before. */
  type Oracle = (seq<Exchange>, Event) -> bool

  function Ask(oracle: Oracle, log: seq<Exchange>, event: Event): seq<Exchange> {
    log + [Exchange(event, oracle(log, event))]
  }

  class Transport {
    const oracle: Oracle
    var log: seq<Exchange>

    constructor (oracle: Oracle)
      ensures this.oracle == oracle && log == []
    {
      this.oracle := oracle;
      log := [];
    }

    method Call(event: Event) returns (ok: bool)
      modifies this
      ensures log == Ask(oracle, old(log), event) && ok == log[|old(log)|].ok
    {
      ok := oracle(log, event);
      log := log + [Exchange(event, ok)];
    }
  }

  // ---------------------------------------------------------------------------------------
  // The protocol
  // ---------------------------------------------------------------------------------------

  const MAX_ATTEMPTS: nat := 3
  const HANDSHAKE_FAILED := "handshake failed"
  const RETRIES_EXHAUSTED := "packet send retries exhausted"

  datatype Delivery = Delivery(error: Option<string>, log: seq<Exchange>)

  function Attempts(oracle: Oracle, log: seq<Exchange>, packet: MigrationPacket, left: nat): Delivery
    decreases left
  {
    if left == 0 then Delivery(Some(RETRIES_EXHAUSTED), log)
    else
      var next := Ask(oracle, log, Send(packet));
      if next[|log|].ok then Delivery(None, next) else Attempts(oracle, next, packet, left - 1)
  }

  function Deliver(oracle: Oracle, log: seq<Exchange>, target: string, packet: MigrationPacket): Delivery {
    var greeted := Ask(oracle, log, Handshake(target, packet.version));
    if !greeted[|log|].ok then Delivery(Some(HANDSHAKE_FAILED), greeted)
    else Attempts(oracle, greeted, packet, MAX_ATTEMPTS)
  }

  method SendWithRetry(transport: Transport, target: string, packet: MigrationPacket)
    returns (error: Option<string>)
    modifies transport
    ensures Delivery(error, transport.log) == Deliver(transport.oracle, old(transport.log), target, packet)
  {
    var greeted := transport.Call(Handshake(target, packet.version));
    if !greeted {
      return Some(HANDSHAKE_FAILED);
    }
    ghost var start := transport.log;
    for attempt := 0 to MAX_ATTEMPTS
      invariant Attempts(transport.oracle, start, packet, MAX_ATTEMPTS)
             == Attempts(transport.oracle, transport.log, packet, MAX_ATTEMPTS - attempt)
    {
      var sent := transport.Call(Send(packet));
      if sent {
        return None;
      }
    }
    return Some(RETRIES_EXHAUSTED);
  }

  /** A log that only holds attempts at one packet, none of which but the last succeeded. */
  predicate Retries(calls: seq<Exchange>, packet: MigrationPacket) {
    && (forall k | 0 <= k < |calls| :: calls[k].event == Send(packet))
    && (forall k | 0 <= k < |calls| - 1 :: !calls[k].ok)
  }

  lemma OneMoreTry(first: Exchange, rest: seq<Exchange>, packet: MigrationPacket)
    requires first.event == Send(packet) && !first.ok && Retries(rest, packet)
    ensures var calls := [first] + rest;
            && Retries(calls, packet) && |calls| == |rest| + 1
            && (calls[|calls| - 1].ok <==> rest != [] && rest[|rest| - 1].ok)
  {
  }

  lemma {:induction false} AttemptsAreRetries(oracle: Oracle, log: seq<Exchange>, packet: MigrationPacket, left: nat)
    ensures var d := Attempts(oracle, log, packet, left);
            && log <= d.log
            && var calls := d.log[|log|..];
            && Retries(calls, packet) && |calls| <= left
            && (d.error == None <==> calls != [] && calls[|calls| - 1].ok)
            && (d.error != None ==> d.error == Some(RETRIES_EXHAUSTED) && |calls| == left)
    decreases left
  {
    if left > 0 {
      var next := Ask(oracle, log, Send(packet));
      if next[|log|].ok {
        assert next[|log|..] == [next[|log|]];
      } else {
        var d := Attempts(oracle, next, packet, left - 1);
        AttemptsAreRetries(oracle, next, packet, left - 1);
        var calls, rest := d.log[|log|..], d.log[|next|..];
        assert calls == [next[|log|]] + rest by {
          assert d.log[..|next|] == next;
        }
        OneMoreTry(next[|log|], rest, packet);
      }
    }
  }

  /** What a delivery puts on the wire, against any transport: one handshake, then at most three sends
      of the packet, only if the handshake succeeded, stopping at the first success. It reports
      success exactly when the last call was a send that succeeded. */
  lemma DeliveryDiscipline(oracle: Oracle, log: seq<Exchange>, target: string, packet: MigrationPacket)
    ensures var d := Deliver(oracle, log, target, packet);
            && log <= d.log && |d.log| > |log|
            && var calls := d.log[|log|..];
            && calls[0].event == Handshake(target, packet.version)
            && Retries(calls[1..], packet) && |calls| <= 4
            && (calls[0].ok <==> |calls| > 1)
            && (d.error == None <==> |calls| > 1 && calls[|calls| - 1].ok)
            && (d.error == Some("handshake failed") <==> !calls[0].ok)
            && (d.error == Some("packet send retries exhausted") ==> |calls| == 4)
  {
    var greeted := Ask(oracle, log, Handshake(target, packet.version));
    var d := Deliver(oracle, log, target, packet);
    if greeted[|log|].ok {
      AttemptsAreRetries(oracle, greeted, packet, MAX_ATTEMPTS);
      assert d.log[..|greeted|] == greeted;
      assert d.log[|log|..][1..] == d.log[|greeted|..];
      assert HANDSHAKE_FAILED[0] != RETRIES_EXHAUSTED[0];
    }
  }

  /** The third send counts as much as the first: a greeted target gets the packet if and only if one of
      three tries in a row is answered with success, and nothing is asked after that one. */
  lemma ThreeTries(oracle: Oracle, log: seq<Exchange>, target: string, packet: MigrationPacket)
    requires oracle(log, Handshake(target, packet.version))
    ensures var greeted := log + [Exchange(Handshake(target, packet.version), true)];
            var one := greeted + [Exchange(Send(packet), oracle(greeted, Send(packet)))];
            var two := one + [Exchange(Send(packet), oracle(one, Send(packet)))];
            var three := two + [Exchange(Send(packet), oracle(two, Send(packet)))];
            Deliver(oracle, log, target, packet) ==
              if oracle(greeted, Send(packet)) then Delivery(None, one)
              else if oracle(one, Send(packet)) then Delivery(None, two)
              else if oracle(two, Send(packet)) then Delivery(None, three)
              else Delivery(Some("packet send retries exhausted"), three)
  {
    var greeted := Ask(oracle, log, Handshake(target, packet.version));
    var one := Ask(oracle, greeted, Send(packet));
    var two := Ask(oracle, one, Send(packet));
    assert Deliver(oracle, log, target, packet) == Attempts(oracle, greeted, packet, 3);
    assert !one[|greeted|].ok ==> Attempts(oracle, greeted, packet, 3) == Attempts(oracle, one, packet, 2);
    assert !two[|one|].ok ==> Attempts(oracle, one, packet, 2) == Attempts(oracle, two, packet, 1);
  }

  // ---------------------------------------------------------------------------------------
  // The pre-copy service
  // ---------------------------------------------------------------------------------------

  const ROUND_SLICE: nat := 10

  /** Both pre-copy rounds. */
  function PreCopied(v: Vm): Vm {
    RunSlice(RunSlice(v, ROUND_SLICE).vm, ROUND_SLICE).vm
  }

  /** The packet that is sent has run the VM on by twenty instructions. */
  lemma PreCopyRunsTwenty(v: Vm)
    ensures PreCopied(v) == RunSlice(v, 20).vm
  {
    hide RunSlice;
    SliceSplit(v, 10, 10);
  }

  method PreCopyMigrate(transport: Transport, vm: VirtualMachine, target: string)
    returns (error: Option<string>)
    requires vm.Valid()
    modifies transport, vm, vm.memory
    ensures vm.Valid()
    ensures vm.State() == PreCopied(old(vm.State()))
    ensures Delivery(error, transport.log)
         == Deliver(transport.oracle, old(transport.log), target, PacketOf(TakeSnapshotOf(vm.State())))
  {
    for round := 0 to 2
      invariant vm.Valid() && transport.log == old(transport.log)
      invariant round == 0 ==> vm.State() == old(vm.State())
      invariant round == 1 ==> vm.State() == RunSlice(old(vm.State()), ROUND_SLICE).vm
      invariant round == 2 ==> vm.State() == PreCopied(old(vm.State()))
    {
      var ran := vm.RunForSlice(ROUND_SLICE);
    }
    var finalSnapshot := vm.Snapshot();
    var packet := Serialize(finalSnapshot);
    error := SendWithRetry(transport, target, packet);
  }
}

/** Per-name counters. */
module Metrics {
  import opened Machine

  datatype SchedulerStats = SchedulerStats(instructionsByVm: map<Name, nat>, dispatchCountByVm: map<Name, nat>)

  /** A counter that was never written reads as zero. */
  function Tally(counts: map<Name, nat>, name: Name): nat {
    if name in counts then counts[name] else 0
  }

  function Bump(counts: map<Name, nat>, name: Name, amount: nat): map<Name, nat> {
    counts[name := Tally(counts, name) + amount]
  }

  class MetricsTracer {
    var stats: SchedulerStats

    constructor ()
      ensures stats == SchedulerStats(map[], map[])
    {
      stats := SchedulerStats(map[], map[]);
    }

    method RecordDispatch(name: Name)
      modifies this
      ensures stats == old(stats).(dispatchCountByVm := Bump(old(stats).dispatchCountByVm, name, 1))
    {
      var count := if name in stats.dispatchCountByVm then stats.dispatchCountByVm[name] else 0;
      stats := stats.(dispatchCountByVm := stats.dispatchCountByVm[name := count + 1]);
    }

    method RecordInstructions(name: Name, count: nat)
      modifies this
      ensures stats == old(stats).(instructionsByVm := Bump(old(stats).instructionsByVm, name, count))
    {
      var sofar := if name in stats.instructionsByVm then stats.instructionsByVm[name] else 0;
      stats := stats.(instructionsByVm := stats.instructionsByVm[name := sofar + count]);
    }
  }
}
