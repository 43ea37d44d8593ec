/** Priority scheduling: exactly which VMs get done, and exactly when. */
module PriorityRuns {
  import opened Words
  import opened Machine
  import opened Schedulers
  import opened Fairness
  import opened Migration
  import opened System
  import opened Termination

  /** The scan can choose j, and as long as j is live it chooses j rather than i. */
  predicate Outranks(vms: seq<Vm>, j: nat, i: nat)
    requires j < |vms| && i < |vms|
  {
    vms[j].config.priority > PRIORITY_FLOOR && Before(Priorities(vms), j, i)
  }

  /** i and every VM that outranks it are done or finish. */
  predicate Unobstructed(vms: seq<Vm>, i: nat)
    requires i < |vms|
  {
    forall j: nat | j < |vms| && (j == i || Outranks(vms, j, i)) :: vms[j].Done() || Finishes(vms[j])
  }

  /** The VM can be picked, and nothing before it in the order, nor itself, is stuck. */
  predicate GetsDone(h: Hypervisor, i: nat)
    requires i < |h.vms|
  {
    h.vms[i].Done() || (Schedulable(h.policy, i, h.vms[i]) && Unobstructed(h.vms, i))
  }

  // ---------------------------------------------------------------------------------------
  // The turns up to i's last
  // ---------------------------------------------------------------------------------------

  /** The dispatches i and the VMs that outrank it need, among the first `upto` VMs. */
  function Share(vms: seq<Vm>, i: nat, upto: nat): nat
    requires i < |vms| && upto <= |vms|
  {
    if upto == 0 then 0
    else
      var j := upto - 1;
      Share(vms, i, j) + if j == i || Outranks(vms, j, i) then DispatchesNeeded(vms[j]) else 0
  }

  /** How many turns it takes until i is done. */
  function TurnsUntilDone(vms: seq<Vm>, i: nat): nat
    requires i < |vms|
  {
    if vms[i].Done() then 0 else Share(vms, i, |vms|)
  }

  /** A dispatch of a VM in the share takes one turn off it. */
  lemma {:induction false} ShareAfterDispatch(vms: seq<Vm>, i: nat, c: nat, w: Vm, upto: nat)
    requires i < |vms| && c < |vms| && upto <= |vms|
    requires w.config == vms[c].config && DispatchesNeeded(w) + 1 == DispatchesNeeded(vms[c])
    requires c == i || Outranks(vms, c, i)
    ensures Share(vms[c := w], i, upto) + (if c < upto then 1 else 0) == Share(vms, i, upto)
    decreases upto
  {
    hide DispatchesNeeded;
    if upto > 0 {
      ShareAfterDispatch(vms, i, c, w, upto - 1);
      assert Priorities(vms[c := w]) == Priorities(vms);
    }
  }

  /** With every VM that outranks i done, the share is what i needs itself. */
  lemma {:induction false} ShareAtFront(vms: seq<Vm>, i: nat, upto: nat)
    requires i < |vms| && upto <= |vms|
    requires forall j: nat | j < |vms| && j != i && Outranks(vms, j, i) :: vms[j].Done()
    ensures Share(vms, i, upto) == if i < upto then DispatchesNeeded(vms[i]) else 0
    decreases upto
  {
    hide DispatchesNeeded;
    if upto > 0 {
      ShareAtFront(vms, i, upto - 1);
      NeededZero(vms[upto - 1]);
    }
  }

  /** As long as i is live the scan picks i or a live VM that outranks it, and i only once all of those
      are done. */
  lemma PickOutranks(h: Hypervisor, i: nat)
    requires h.policy.Priority? && i < |h.vms| && !h.vms[i].Done() && Schedulable(h.policy, i, h.vms[i])
    ensures var c := Turn(h).index;
            && c < |h.vms| && !h.vms[c].Done() && (c == i || Outranks(h.vms, c, i))
            && (c == i ==> forall j: nat | j < |h.vms| && j != i && Outranks(h.vms, j, i) :: h.vms[j].Done())
  {
    var statuses, priorities := Statuses(h.vms), Priorities(h.vms);
    BestIsFirst(statuses, priorities, |h.vms|);
    assert h.vms[i].config.priority > PRIORITY_FLOOR ==> Eligible(statuses, priorities, i);
    forall j: nat | j < |h.vms| && j != i && Outranks(h.vms, j, i) && !h.vms[j].Done()
      ensures Turn(h).index != i
    {
      assert Eligible(statuses, priorities, j);
    }
  }

  /** One turn towards i. */
  lemma TurnTowards(oracle: Oracle, h: Hypervisor, i: nat)
    requires NonePending(h.vms) && h.policy.Priority? && i < |h.vms| && !h.vms[i].Done() && GetsDone(h, i)
    ensures var next := Iterate(oracle, h);
            && |next.vms| == |h.vms| && NonePending(next.vms) && next.policy.Priority? && GetsDone(next, i)
            && TurnsUntilDone(next.vms, i) + 1 == TurnsUntilDone(h.vms, i)
  {
    hide DispatchesNeeded, Finishes, Before, Dispatch;
    PickOutranks(h, i);
    var c := Turn(h).index;
    var v := h.vms[c];
    LiveTurn(oracle, h);
    DispatchCounts(v);
    DispatchKeepsSolo(v);
    PolicyKindKept(h);
    var next := Iterate(oracle, h);
    assert Priorities(next.vms) == Priorities(h.vms);
    ShareAfterDispatch(h.vms, i, c, Dispatch(v), |h.vms|);
    if next.vms[i].Done() {
      ShareAtFront(h.vms, i, |h.vms|);
      NeededZero(Dispatch(v));
    }
  }

  /** Under the priority policy a VM that nothing obstructs is done after exactly the turns that it and
      the VMs before it in the order need, and then has its solo result. */
  lemma {:induction false} ExactPriorityTurns(oracle: Oracle, h: Hypervisor, i: nat, k: nat)
    requires NonePending(h.vms) && h.policy.Priority? && i < |h.vms| && GetsDone(h, i)
    ensures Iterations(oracle, h, k).vms[i].Done() <==> k >= TurnsUntilDone(h.vms, i)
    ensures k >= TurnsUntilDone(h.vms, i) ==> Iterations(oracle, h, k).vms[i] == Solo(h.vms[i])
    decreases k
  {
    hide Iterate, GetsDone, Share, Solo;
    if h.vms[i].Done() {
      SoloInvariant(oracle, h, k, i);
      DoneSolo(h.vms[i]);
    } else {
      TurnTowards(oracle, h, i);
      if k > 0 {
        ExactPriorityTurns(oracle, Iterate(oracle, h), i, k - 1);
        if k >= TurnsUntilDone(h.vms, i) {
          Isolation(oracle, h, k, i);
        }
      }
    }
  }

  /** A VM that is obstructed, or cannot be picked, never gets done. */
  lemma NeverDone(oracle: Oracle, h: Hypervisor, i: nat, k: nat)
    requires NonePending(h.vms) && h.policy.Priority? && i < |h.vms| && !GetsDone(h, i)
    ensures !Iterations(oracle, h, k).vms[i].Done()
  {
    hide Iterations, Finishes, Schedulable, Before;
    if WillFinish(h.policy, i, h.vms[i]) {
      var j: nat :| j < |h.vms| && (j == i || Outranks(h.vms, j, i)) && !h.vms[j].Done() && !Finishes(h.vms[j]);
      PriorityStarves(oracle, h, j, i, k);
    } else {
      StuckForever(oracle, h, k, i);
    }
  }

  /** Starvation under priority, exactly: a VM ever gets done if and only if it is done already, or can be
      picked and neither it nor any live VM the scan prefers to it is stuck. */
  lemma PriorityDoneIff(oracle: Oracle, h: Hypervisor, i: nat)
    requires NonePending(h.vms) && h.policy.Priority? && i < |h.vms|
    ensures (exists k: nat :: Iterations(oracle, h, k).vms[i].Done()) <==> GetsDone(h, i)
  {
    hide Iterations, GetsDone;
    if GetsDone(h, i) {
      ExactPriorityTurns(oracle, h, i, TurnsUntilDone(h.vms, i));
    } else {
      forall k: nat
        ensures !Iterations(oracle, h, k).vms[i].Done()
      {
        NeverDone(oracle, h, i, k);
      }
    }
  }

  /** An input on which it fails: a VM at a MIGRATE keeps a VM that only has to HALT from ever running. */
  lemma MigrateStarvesHalt(oracle: Oracle, h: Hypervisor, high: VmConfig, low: VmConfig, k: nat)
    requires h.policy == Priority
    requires high.priority == 2 && low.priority == 1 && high.slice == low.slice == 50
    requires h.vms == [FreshVm(high, [Instruction(Opcode.Migrate, 0, 0, 0, 0, "")]),
                       FreshVm(low, [Instruction(Opcode.Halt, 0, 0, 0, 0, "")])]
    ensures Finishes(h.vms[1])
    ensures Turn(Iterations(oracle, h, k)).index != 1
    ensures Iterations(oracle, h, k).vms[1] == h.vms[1] && !h.vms[1].Done()
  {
    assert ReachesMigrate(h.vms[0]) && !ReachesMigrate(h.vms[1]);
    PriorityStarves(oracle, h, 0, 1, k);
  }
}
