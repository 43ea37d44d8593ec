/** When the hypervisor's loop ends, after exactly how many turns, and with which counts. */
module Termination {
  import opened Words
  import opened Machine
  import opened Schedulers
  import opened Fairness
  import opened Migration
  import opened Metrics
  import opened System

  // ---------------------------------------------------------------------------------------
  // Dispatches a VM needs
  // ---------------------------------------------------------------------------------------

  /** The VM gets done if it is dispatched often enough. */
  predicate Finishes(v: Vm) {
    v.Done() || v.AtEnd() || (v.config.slice >= 1 && !ReachesMigrate(v))
  }

  function CeilDiv(a: nat, b: nat): nat
    requires b > 0
  {
    (a + b - 1) / b
  }

  /** With L instructions left to retire and slice s: floor(L / s) + 1 dispatches if a HALT or a fault
      ends the run, max(1, ceil(L / s)) if the program runs out. */
  function DispatchesNeeded(v: Vm): nat {
    var left := SoloRetired(v);
    if v.Done() then 0
    else if left == 0 || v.config.slice == 0 then 1
    else if Solo(v).AtEnd() then CeilDiv(left, v.config.slice)
    else left / v.config.slice + 1
  }

  lemma DivStep(a: nat, s: nat)
    requires 0 < s <= a
    ensures a / s == (a - s) / s + 1
  {
    var q := (a - s) / s;
    assert a - s == s * q + (a - s) % s;
    QuotientIs(a, s, q + 1, (a - s) % s);
  }

  lemma QuotientIs(a: nat, s: nat, q: nat, r: nat)
    requires s > 0 && r < s && a == s * q + r
    ensures a / s == q
  {
    var p := a / s;
    assert a == s * p + a % s;
    MulGap(s, p, q);
    MulGap(s, q, p);
  }

  lemma MulGap(s: nat, p: nat, q: nat)
    ensures p < q ==> s * p + s <= s * q
  {
    if p < q {
      MulMonotone(p + 1, q, s);
    }
  }

  lemma SmallQuotients(left: nat, s: nat)
    requires s > 0
    ensures left < s ==> left / s == 0
    ensures 0 < left <= s ==> CeilDiv(left, s) == 1
    ensures left == s ==> left / s == 1
  {
    if left < s {
      QuotientIs(left, s, 0, left);
    }
    if 0 < left <= s {
      QuotientIs(left + s - 1, s, 1, left - 1);
    }
    if left == s {
      QuotientIs(left, s, 1, 0);
    }
  }

  /** The three ways a slice of a VM that finishes can end. */
  lemma SliceOutcome(v: Vm)
    requires v.pending == None && !v.Done() && Finishes(v)
    ensures var w := Dispatch(v);
            var r := RunSlice(v, v.config.slice).retired;
            || (w.Done() && !w.AtEnd() && r < v.config.slice)
            || (w.Done() && w.AtEnd() && r <= v.config.slice)
            || (!w.Done() && !w.AtEnd() && r == v.config.slice >= 1)
  {
    var start := v.(status := Running);
    BurstShape(start, v.config.slice);
    DispatchKeepsSolo(v);
    DispatchIsSlice(v);
    SoloBlocksIff(v);
    var w := RunSlice(v, v.config.slice).vm;
    if w.status == Blocked {
      BlockedStep(v, v.config.slice);
      SoloBlocksIff(Dispatch(v));
      assert false;
    }
  }

  /** The closed form, one slice on: left is what the solo run retires. */
  lemma CountOneSlice(left: nat, s: nat)
    requires 0 < s
    ensures left < s ==> left / s + 1 == 1
    ensures 0 < left <= s ==> CeilDiv(left, s) == 1
    ensures left == s ==> left / s + 1 == 2
    ensures left > s ==> CeilDiv(left, s) == CeilDiv(left - s, s) + 1
    ensures left > s ==> left / s + 1 == ((left - s) / s + 1) + 1
  {
    SmallQuotients(left, s);
    if left > s {
      DivStep(left, s);
      DivStep(left + s - 1, s);
    }
  }

  /** A dispatch brings a VM that finishes exactly one dispatch closer to being done. */
  lemma DispatchCounts(v: Vm)
    requires v.pending == None && !v.Done() && Finishes(v)
    ensures Finishes(Dispatch(v))
    ensures DispatchesNeeded(Dispatch(v)) + 1 == DispatchesNeeded(v)
  {
    var w, s, left := Dispatch(v), v.config.slice, SoloRetired(v);
    SliceOutcome(v);
    DispatchKeepsSolo(v);
    SoloEnd(v);
    if s > 0 {
      CountOneSlice(left, s);
    }
    if w.Done() {
      DoneSolo(w);
    } else {
      SoloEnd(w);
      StillFinishes(v);
    }
  }

  lemma DoneSolo(w: Vm)
    requires w.Done()
    ensures Solo(w) == w.(pending := None)
    ensures SoloRetired(w) == 0 && Solo(w).cpu == w.cpu && Solo(w).program == w.program
  {
  }

  lemma StillFinishes(v: Vm)
    requires v.pending == None && !v.Done() && Finishes(v) && !Dispatch(v).Done()
    ensures Finishes(Dispatch(v))
  {
    DispatchKeepsSolo(v);
    SoloBlocksIff(v);
    SoloBlocksIff(Dispatch(v));
  }

  /** Where the solo run leaves pc. */
  lemma SoloEnd(v: Vm)
    ensures Solo(v).cpu.pc == v.cpu.pc + SoloRetired(v)
    ensures Solo(v).program == v.program
  {
    SliceShape(v, v.Remaining());
  }

  // ---------------------------------------------------------------------------------------
  // Sums over the VMs
  // ---------------------------------------------------------------------------------------

  function Sum(f: Vm -> int, vms: seq<Vm>): int
    decreases |vms|
  {
    if vms == [] then 0 else f(vms[0]) + Sum(f, vms[1..])
  }

  lemma {:induction false} SumUpdate(f: Vm -> int, vms: seq<Vm>, i: nat, v: Vm)
    requires i < |vms|
    ensures Sum(f, vms[i := v]) == Sum(f, vms) - f(vms[i]) + f(v)
    decreases |vms|
  {
    if i == 0 {
      assert vms[i := v][1..] == vms[1..];
    } else {
      assert vms[i := v][1..] == vms[1..][i - 1 := v];
      SumUpdate(f, vms[1..], i - 1, v);
    }
  }

  lemma {:induction false} SumZero(f: Vm -> int, vms: seq<Vm>)
    requires forall i | 0 <= i < |vms| :: f(vms[i]) >= 0
    ensures Sum(f, vms) >= 0
    ensures Sum(f, vms) == 0 <==> forall i | 0 <= i < |vms| :: f(vms[i]) == 0
    decreases |vms|
  {
    if vms != [] {
      assert forall i | 0 <= i < |vms| - 1 :: vms[1..][i] == vms[i + 1];
      SumZero(f, vms[1..]);
      assert (forall i | 0 <= i < |vms| :: f(vms[i]) == 0)
             <==> f(vms[0]) == 0 && forall i | 0 <= i < |vms[1..]| :: f(vms[1..][i]) == 0 by {
        if f(vms[0]) == 0 && forall i | 0 <= i < |vms[1..]| :: f(vms[1..][i]) == 0 {
          forall i | 0 <= i < |vms|
            ensures f(vms[i]) == 0
          {
            if i > 0 {
              assert vms[1..][i - 1] == vms[i];
            }
          }
        }
      }
    }
  }

  function Needs(): Vm -> int {
    (v: Vm) => DispatchesNeeded(v)
  }

  /** Dispatches needed by the VMs of one name. */
  function NeedsOf(name: Name): Vm -> int {
    (v: Vm) => if v.config.name == name then DispatchesNeeded(v) else 0
  }

  /** The program counters of the VMs of one name. */
  function PcOf(name: Name): Vm -> int {
    (v: Vm) => if v.config.name == name then v.cpu.pc else 0
  }

  function TotalNeeded(vms: seq<Vm>): nat {
    SumZero(Needs(), vms);
    Sum(Needs(), vms)
  }

  lemma TotalNeededZero(vms: seq<Vm>)
    ensures TotalNeeded(vms) == 0 <==> AllDone(vms)
  {
    SumZero(Needs(), vms);
    forall i | 0 <= i < |vms|
      ensures Needs()(vms[i]) == 0 <==> vms[i].Done()
    {
      NeededZero(vms[i]);
    }
  }

  lemma NeededZero(v: Vm)
    ensures DispatchesNeeded(v) == 0 <==> v.Done()
  {
    var left, s := SoloRetired(v), v.config.slice;
    if left > 0 && s > 0 {
      SmallQuotients(left, s);
      if left > s {
        DivStep(left + s - 1, s);
      }
    }
  }

  // ---------------------------------------------------------------------------------------
  // Exact termination
  // ---------------------------------------------------------------------------------------

  /** The policy can pick the VM: the priority scan passes over anything at or below its floor, except
      that it falls back on index 0. */
  predicate Schedulable(p: Policy, i: nat, v: Vm) {
    p.Priority? ==> i == 0 || v.config.priority > PRIORITY_FLOOR
  }

  predicate WillFinish(p: Policy, i: nat, v: Vm) {
    v.Done() || (Finishes(v) && Schedulable(p, i, v))
  }

  predicate Terminating(h: Hypervisor) {
    forall i | 0 <= i < |h.vms| :: WillFinish(h.policy, i, h.vms[i])
  }

  /** A pick of any policy is live if some live VM can be picked. */
  lemma LivePick(h: Hypervisor, i: nat)
    requires PolicySound(h.policy, Statuses(h.vms))
    requires i < |h.vms| && !h.vms[i].Done() && Schedulable(h.policy, i, h.vms[i])
    ensures Live(Statuses(h.vms), Turn(h).index)
    ensures PolicySound(Turn(h).next, Statuses(h.vms))
    ensures Turn(h).next.Priority? == h.policy.Priority?
  {
    if h.policy.Priority? {
      BestIsFirst(Statuses(h.vms), Priorities(h.vms), |h.vms|);
      assert h.vms[i].config.priority > PRIORITY_FLOOR ==> Eligible(Statuses(h.vms), Priorities(h.vms), i);
    } else {
      FairPick(h.policy, Statuses(h.vms), Priorities(h.vms), i);
    }
  }

  lemma StatusesFollow(oracle: Oracle, h: Hypervisor)
    requires NonePending(h.vms)
    ensures Follows(Statuses(h.vms), Statuses(Iterate(oracle, h).vms))
  {
    forall i: nat | i < |h.vms|
      ensures h.vms[i].Done() ==> Iterate(oracle, h).vms[i].Done()
    {
      TurnTouchesOne(oracle, h, i);
    }
  }

  /** What a turn does when the pick is live. */
  lemma LiveTurn(oracle: Oracle, h: Hypervisor)
    requires Live(Statuses(h.vms), Turn(h).index)
    ensures var next := Iterate(oracle, h);
            var v := h.vms[Turn(h).index];
            && next.vms == h.vms[Turn(h).index := Dispatch(v)]
            && next.policy == Turn(h).next
            && next.stats == Record(h.stats, v.config.name, RunSlice(v, v.config.slice).retired)
  {
  }

  /** Every turn of a terminating system dispatches a live VM and keeps the system terminating. */
  lemma TerminatingTurn(oracle: Oracle, h: Hypervisor)
    requires NonePending(h.vms) && Terminating(h) && PolicySound(h.policy, Statuses(h.vms))
    requires !AllDone(h.vms)
    ensures Live(Statuses(h.vms), Turn(h).index) && Finishes(h.vms[Turn(h).index])
    ensures var next := Iterate(oracle, h);
            NonePending(next.vms) && Terminating(next) && PolicySound(next.policy, Statuses(next.vms))
  {
    var i: nat :| i < |h.vms| && !h.vms[i].Done();
    LivePick(h, i);
    LiveTurn(oracle, h);
    var v := h.vms[Turn(h).index];
    DispatchCounts(v);
    DispatchKeepsSolo(v);
    StatusesFollow(oracle, h);
    SoundnessFollows(Turn(h).next, Statuses(h.vms), Statuses(Iterate(oracle, h).vms));
  }

  /** It makes exactly one dispatch of progress. */
  lemma TurnProgress(oracle: Oracle, h: Hypervisor)
    requires NonePending(h.vms) && Live(Statuses(h.vms), Turn(h).index) && Finishes(h.vms[Turn(h).index])
    ensures TotalNeeded(Iterate(oracle, h).vms) == TotalNeeded(h.vms) - 1
  {
    LiveTurn(oracle, h);
    DispatchCounts(h.vms[Turn(h).index]);
    SumUpdate(Needs(), h.vms, Turn(h).index, Dispatch(h.vms[Turn(h).index]));
  }

  /** The loop of a terminating system ends after exactly TotalNeeded turns, under every policy. */
  lemma {:induction false} ExactTurns(oracle: Oracle, h: Hypervisor, k: nat)
    requires NonePending(h.vms) && Terminating(h) && PolicySound(h.policy, Statuses(h.vms))
    ensures AllDone(Iterations(oracle, h, k).vms) <==> k >= TotalNeeded(h.vms)
    decreases k
  {
    TotalNeededZero(h.vms);
    if AllDone(h.vms) {
      Stutters(oracle, h, k);
    } else if k > 0 {
      TerminatingTurn(oracle, h);
      TurnProgress(oracle, h);
      ExactTurns(oracle, Iterate(oracle, h), k - 1);
    }
  }

  lemma {:induction false} Stutters(oracle: Oracle, h: Hypervisor, k: nat)
    requires AllDone(h.vms)
    ensures Iterations(oracle, h, k) == h
    decreases k
  {
    if k > 0 {
      Stutters(oracle, h, k - 1);
    }
  }

  /** A VM that will not finish is stuck: however it is dispatched, it stays so. */
  lemma StuckDispatch(v: Vm)
    requires v.pending == None && !Finishes(v)
    ensures !Finishes(Dispatch(v))
  {
    DispatchKeepsSolo(v);
    DispatchIsSlice(v);
    SoloBlocksIff(v);
    var w := Dispatch(v);
    if v.config.slice > 0 {
      if !w.Done() {
        SoloBlocksIff(w);
      }
    }
  }

  /** Under the priority policy an unschedulable VM is never picked. */
  lemma NeverPicked(h: Hypervisor, i: nat)
    requires i < |h.vms| && !Schedulable(h.policy, i, h.vms[i])
    ensures Turn(h).index != i && Turn(h).next.Priority?
  {
    BestIsFirst(Statuses(h.vms), Priorities(h.vms), |h.vms|);
  }

  lemma PolicyKindKept(h: Hypervisor)
    ensures Turn(h).next.Priority? == h.policy.Priority?
  {
  }

  lemma StuckTurn(oracle: Oracle, h: Hypervisor, i: nat)
    requires NonePending(h.vms) && i < |h.vms| && !WillFinish(h.policy, i, h.vms[i])
    ensures var next := Iterate(oracle, h);
            |next.vms| == |h.vms| && NonePending(next.vms) && !WillFinish(next.policy, i, next.vms[i])
  {
    TurnTouchesOne(oracle, h, i);
    PolicyKindKept(h);
    if Finishes(h.vms[i]) {
      NeverPicked(h, i);
    } else {
      StuckDispatch(h.vms[i]);
      DispatchKeepsSolo(h.vms[i]);
    }
  }

  lemma {:induction false} StuckForever(oracle: Oracle, h: Hypervisor, k: nat, i: nat)
    requires NonePending(h.vms) && i < |h.vms| && !WillFinish(h.policy, i, h.vms[i])
    ensures !Iterations(oracle, h, k).vms[i].Done()
    decreases k
  {
    hide Iterate, Finishes, Schedulable;
    if k > 0 {
      StuckTurn(oracle, h, i);
      StuckForever(oracle, Iterate(oracle, h), k - 1, i);
    }
  }

  /** The loop ends if and only if every VM is done already, or avoids MIGRATE with a positive slice (or
      has nothing left to run) and can be picked. */
  lemma RunEndsIff(oracle: Oracle, h: Hypervisor)
    requires NonePending(h.vms) && PolicySound(h.policy, Statuses(h.vms))
    ensures (exists k: nat :: AllDone(Iterations(oracle, h, k).vms)) <==> Terminating(h)
  {
    if Terminating(h) {
      TotalNeededZero(h.vms);
      ExactTurns(oracle, h, TotalNeeded(h.vms));
    } else {
      var i: nat :| i < |h.vms| && !WillFinish(h.policy, i, h.vms[i]);
      forall k: nat
        ensures !AllDone(Iterations(oracle, h, k).vms)
      {
        StuckForever(oracle, h, k, i);
      }
    }
  }

  /** The hypervisor as it is set up: a new scheduler of any policy, and VMs that have not run. */
  ghost predicate FreshHypervisor(h: Hypervisor) {
    && (h.policy == RoundRobin(0) || h.policy == Priority || h.policy == Mlfq(false, [], [], []))
    && forall i | 0 <= i < |h.vms| :: h.vms[i] == FreshVm(h.vms[i].config, h.vms[i].program)
  }

  /** From a fresh set-up the loop ends if and only if every VM has a positive slice (or no program),
      avoids MIGRATE, and can be picked; and then every VM ends as if it had run alone, after exactly
      TotalNeeded turns. */
  lemma FreshRun(oracle: Oracle, h: Hypervisor)
    requires FreshHypervisor(h)
    ensures (exists k: nat :: AllDone(Iterations(oracle, h, k).vms))
            <==> forall i | 0 <= i < |h.vms| ::
                   && (h.vms[i].program == [] || (h.vms[i].config.slice >= 1 && !ReachesMigrate(h.vms[i])))
                   && Schedulable(h.policy, i, h.vms[i])
    ensures forall k: nat | AllDone(Iterations(oracle, h, k).vms) ::
              && k >= TotalNeeded(h.vms)
              && forall i | 0 <= i < |h.vms| :: Iterations(oracle, h, k).vms[i] == Solo(h.vms[i])
  {
    hide Iterations, ReachesMigrate, Solo, TotalNeeded;
    RunEndsIff(oracle, h);
    forall k: nat | AllDone(Iterations(oracle, h, k).vms)
      ensures k >= TotalNeeded(h.vms)
      ensures forall i | 0 <= i < |h.vms| :: Iterations(oracle, h, k).vms[i] == Solo(h.vms[i])
    {
      assert exists j: nat :: AllDone(Iterations(oracle, h, j).vms);
      assert Terminating(h);
      ExactTurns(oracle, h, k);
      forall i: nat | i < |h.vms|
        ensures Iterations(oracle, h, k).vms[i] == Solo(h.vms[i])
      {
        Isolation(oracle, h, k, i);
      }
    }
  }

  // ---------------------------------------------------------------------------------------
  // Exact counts
  // ---------------------------------------------------------------------------------------

  /** Recorded instructions, less how far the program counters of that name have moved. */
  function InstructionBalance(h: Hypervisor, name: Name): int {
    Tally(h.stats.instructionsByVm, name) - Sum(PcOf(name), h.vms)
  }

  /** Recorded dispatches, plus those the VMs of that name still need. */
  function DispatchBalance(h: Hypervisor, name: Name): int {
    Tally(h.stats.dispatchCountByVm, name) + Sum(NeedsOf(name), h.vms)
  }

  lemma TurnBalancesInstructions(oracle: Oracle, h: Hypervisor, name: Name)
    requires NonePending(h.vms)
    ensures InstructionBalance(Iterate(oracle, h), name) == InstructionBalance(h, name)
  {
    var c := Turn(h);
    if !AllDone(h.vms) && Live(Statuses(h.vms), c.index) {
      LiveTurn(oracle, h);
      DispatchKeepsSolo(h.vms[c.index]);
      SumUpdate(PcOf(name), h.vms, c.index, Dispatch(h.vms[c.index]));
    }
  }

  lemma TurnBalancesDispatches(oracle: Oracle, h: Hypervisor, name: Name)
    requires NonePending(h.vms) && Live(Statuses(h.vms), Turn(h).index) && Finishes(h.vms[Turn(h).index])
    ensures DispatchBalance(Iterate(oracle, h), name) == DispatchBalance(h, name)
  {
    var v := h.vms[Turn(h).index];
    LiveTurn(oracle, h);
    DispatchCounts(v);
    DispatchKeepsSolo(v);
    SumUpdate(NeedsOf(name), h.vms, Turn(h).index, Dispatch(v));
  }

  /** In any run at all, the instructions recorded for a name are those by which the program counters
      of its VMs have moved. */
  lemma {:induction false} InstructionsConserved(oracle: Oracle, h: Hypervisor, k: nat, name: Name)
    requires NonePending(h.vms)
    ensures InstructionBalance(Iterations(oracle, h, k), name) == InstructionBalance(h, name)
    decreases k
  {
    if k > 0 {
      TurnTransmits(oracle, h);
      TurnBalancesInstructions(oracle, h, name);
      InstructionsConserved(oracle, Iterate(oracle, h), k - 1, name);
    }
  }

  /** In a terminating run, the dispatches recorded for a name and those its VMs still need add up to a
      constant. */
  lemma {:induction false} DispatchesConserved(oracle: Oracle, h: Hypervisor, k: nat, name: Name)
    requires NonePending(h.vms) && Terminating(h) && PolicySound(h.policy, Statuses(h.vms))
    ensures DispatchBalance(Iterations(oracle, h, k), name) == DispatchBalance(h, name)
    decreases k
  {
    hide Iterate, DispatchBalance;
    if AllDone(h.vms) {
      Stutters(oracle, h, k);
    } else if k > 0 {
      TerminatingTurn(oracle, h);
      TurnBalancesDispatches(oracle, h, name);
      DispatchesConserved(oracle, Iterate(oracle, h), k - 1, name);
    }
  }

  /** The VM at i is the only one of its name. */
  ghost predicate NameUnique(vms: seq<Vm>, i: nat)
    requires i < |vms|
  {
    forall j | 0 <= j < |vms| && j != i :: vms[j].config.name != vms[i].config.name
  }

  /** A turn adds one to the dispatches of a uniquely named VM if it dispatches that VM, and nothing else. */
  lemma TurnTallied(oracle: Oracle, h: Hypervisor, i: nat)
    requires NonePending(h.vms) && i < |h.vms| && NameUnique(h.vms, i)
    ensures var next, name := Iterate(oracle, h), h.vms[i].config.name;
            && NameUnique(next.vms, i) && next.vms[i].config == h.vms[i].config
            && Tally(next.stats.dispatchCountByVm, name)
               == Tally(h.stats.dispatchCountByVm, name)
                  + if Turn(h).index == i && !h.vms[i].Done() then 1 else 0
  {
    forall j: nat | j < |h.vms|
      ensures Iterate(oracle, h).vms[j].config == h.vms[j].config
    {
      TurnTouchesOne(oracle, h, j);
      if !h.vms[j].Done() {
        DispatchKeepsSolo(h.vms[j]);
      }
    }
    if Live(Statuses(h.vms), Turn(h).index) {
      LiveTurn(oracle, h);
    }
  }

  lemma {:induction false} SumOfOne(f: Vm -> int, vms: seq<Vm>, i: nat)
    requires i < |vms| && forall j | 0 <= j < |vms| && j != i :: f(vms[j]) == 0
    ensures Sum(f, vms) == f(vms[i])
    decreases |vms|
  {
    assert forall j | 0 <= j < |vms| - 1 :: vms[1..][j] == vms[j + 1];
    if i == 0 {
      SumZero(f, vms[1..]);
    } else {
      assert forall j | 0 <= j < |vms[1..]| && j != i - 1 :: f(vms[1..][j]) == 0;
      SumOfOne(f, vms[1..], i - 1);
    }
  }

  /** Exact dispatch count: once the loop has ended, a VM of unique name has been dispatched exactly as
      often as its solo length and its slice prescribe, under every policy. */
  lemma ExactDispatchCount(oracle: Oracle, h: Hypervisor, k: nat, i: nat)
    requires NonePending(h.vms) && Terminating(h) && PolicySound(h.policy, Statuses(h.vms))
    requires AllDone(Iterations(oracle, h, k).vms)
    requires i < |h.vms| && NameUnique(h.vms, i)
    ensures var name := h.vms[i].config.name;
            Tally(Iterations(oracle, h, k).stats.dispatchCountByVm, name)
            == Tally(h.stats.dispatchCountByVm, name) + DispatchesNeeded(h.vms[i])
  {
    var name := h.vms[i].config.name;
    DispatchesConserved(oracle, h, k, name);
    SumOfOne(NeedsOf(name), h.vms, i);
    SumZero(NeedsOf(name), Iterations(oracle, h, k).vms);
  }

  /** And it has retired exactly its solo length. */
  lemma ExactInstructionCount(oracle: Oracle, h: Hypervisor, k: nat, i: nat)
    requires NonePending(h.vms)
    requires AllDone(Iterations(oracle, h, k).vms)
    requires i < |h.vms| && NameUnique(h.vms, i)
    ensures var name := h.vms[i].config.name;
            Tally(Iterations(oracle, h, k).stats.instructionsByVm, name)
            == Tally(h.stats.instructionsByVm, name) + SoloRetired(h.vms[i])
  {
    var name := h.vms[i].config.name;
    var after := Iterations(oracle, h, k).vms;
    InstructionsConserved(oracle, h, k, name);
    forall j: nat | j < |h.vms|
      ensures after[j].config == h.vms[j].config
    {
      SoloInvariant(oracle, h, k, j);
    }
    SumOfOne(PcOf(name), h.vms, i);
    SumOfOne(PcOf(name), after, i);
    Isolation(oracle, h, k, i);
    SoloEnd(h.vms[i]);
  }

  // ---------------------------------------------------------------------------------------
  // Waiting for others
  // ---------------------------------------------------------------------------------------

  /** A system of n VMs as added, under a fair policy. */
  ghost predicate FairSystem(h: Hypervisor, n: nat) {
    && |h.vms| == n && NonePending(h.vms)
    && Fair(h.policy) && PolicySound(h.policy, Statuses(h.vms))
  }

  /** One turn of a fair policy, from the point of view of one live VM. */
  lemma FairTurn(oracle: Oracle, h: Hypervisor, n: nat, i: nat)
    requires FairSystem(h, n) && i < n && !h.vms[i].Done()
    ensures var next := Iterate(oracle, h);
            && FairSystem(next, n)
            && MaxWait(next.policy, n) == MaxWait(h.policy, n)
            && 0 <= Rank(h.policy, i, n) <= MaxWait(h.policy, n)
            && (Turn(h).index == i ==> next.vms[i] == Dispatch(h.vms[i]))
            && (Turn(h).index != i ==>
                  next.vms[i] == h.vms[i] && Rank(next.policy, i, n) < Rank(h.policy, i, n))
  {
    var statuses := Statuses(h.vms);
    FairPick(h.policy, statuses, Priorities(h.vms), i);
    LiveTurn(oracle, h);
    TurnTouchesOne(oracle, h, i);
    StatusesFollow(oracle, h);
    SoundnessFollows(Turn(h).next, statuses, Statuses(Iterate(oracle, h).vms));
  }

  /** k turns on, i has had its dispatch and the system is still fair. */
  ghost predicate DispatchedAfter(oracle: Oracle, h: Hypervisor, n: nat, i: nat, k: nat)
    requires |h.vms| == n && i < n
  {
    var after := Iterations(oracle, h, k);
    && FairSystem(after, n)
    && MaxWait(after.policy, n) == MaxWait(h.policy, n)
    && after.vms[i] == Dispatch(h.vms[i])
  }

  lemma DispatchedLater(oracle: Oracle, h: Hypervisor, n: nat, i: nat, k: nat)
    requires |h.vms| == n && i < n
    requires var next := Iterate(oracle, h);
             && |next.vms| == n && next.vms[i] == h.vms[i]
             && MaxWait(next.policy, n) == MaxWait(h.policy, n)
             && DispatchedAfter(oracle, next, n, i, k)
    ensures DispatchedAfter(oracle, h, n, i, k + 1)
  {
  }

  /** Under a fair policy a live VM is dispatched within MaxWait + 1 turns, whatever the others do, and
      is not touched before that. */
  lemma {:induction false} DispatchedSoon(oracle: Oracle, h: Hypervisor, n: nat, i: nat) returns (k: nat)
    requires FairSystem(h, n) && i < n && !h.vms[i].Done()
    ensures 1 <= k <= Rank(h.policy, i, n) + 1
    ensures DispatchedAfter(oracle, h, n, i, k)
    decreases Rank(h.policy, i, n)
  {
    hide Iterate, Dispatch;
    var next := Iterate(oracle, h);
    FairTurn(oracle, h, n, i);
    if next.vms[i] == Dispatch(h.vms[i]) {
      k := 1;
      assert Iterations(oracle, next, 0) == next;
    } else {
      var m := RestOfWait(oracle, h, next, n, i);
      DispatchedLater(oracle, h, n, i, m);
      k := m + 1;
    }
  }

  lemma {:induction false} RestOfWait(oracle: Oracle, h: Hypervisor, next: Hypervisor, n: nat, i: nat)
    returns (k: nat)
    requires FairSystem(next, n) && i < n && !next.vms[i].Done()
    requires 0 <= Rank(h.policy, i, n) && Rank(next.policy, i, n) < Rank(h.policy, i, n)
    ensures 1 <= k <= Rank(next.policy, i, n) + 1
    ensures DispatchedAfter(oracle, next, n, i, k)
    decreases Rank(h.policy, i, n), 0
  {
    FairTurn(oracle, next, n, i);
    k := DispatchedSoon(oracle, next, n, i);
  }

  /** Under round robin and the feedback queues a VM that finishes reaches its solo result within
      (MaxWait + 1) turns per dispatch it needs, even if other VMs are stuck at a MIGRATE forever. */
  lemma {:induction false} NoStarvation(oracle: Oracle, h: Hypervisor, i: nat) returns (k: nat)
    requires NonePending(h.vms) && Fair(h.policy) && PolicySound(h.policy, Statuses(h.vms))
    requires i < |h.vms| && Finishes(h.vms[i])
    ensures k <= (MaxWait(h.policy, |h.vms|) + 1) * DispatchesNeeded(h.vms[i])
    ensures Iterations(oracle, h, k).vms[i].Done()
    ensures Iterations(oracle, h, k).vms[i] == Solo(h.vms[i])
    decreases DispatchesNeeded(h.vms[i])
  {
    hide Iterate, Dispatch, RunSlice, DispatchesNeeded, Finishes, PolicySound, Rank;
    NeededZero(h.vms[i]);
    if h.vms[i].Done() {
      k := 0;
      DoneSolo(h.vms[i]);
    } else {
      FairTurn(oracle, h, |h.vms|, i);
      var soon := DispatchedSoon(oracle, h, |h.vms|, i);
      DispatchCounts(h.vms[i]);
      DispatchKeepsSolo(h.vms[i]);
      var later := NoStarvation(oracle, Iterations(oracle, h, soon), i);
      IterationsSplit(oracle, h, soon, later);
      k := soon + later;
      OneMore(MaxWait(h.policy, |h.vms|) + 1, DispatchesNeeded(h.vms[i]));
    }
  }

  lemma OneMore(wait: nat, needed: nat)
    requires needed >= 1
    ensures wait * needed == wait * (needed - 1) + wait
  {
  }

  /** A live VM the scan can choose blocks every VM after it in the order, and stays stuck. */
  lemma StarvedTurn(oracle: Oracle, h: Hypervisor, stuck: nat, i: nat)
    requires NonePending(h.vms) && h.policy.Priority?
    requires stuck < |h.vms| && !Finishes(h.vms[stuck]) && h.vms[stuck].config.priority > PRIORITY_FLOOR
    requires i < |h.vms| && Before(Priorities(h.vms), stuck, i)
    ensures var next := Iterate(oracle, h);
            && |next.vms| == |h.vms| && NonePending(next.vms) && next.policy.Priority?
            && next.vms[i] == h.vms[i] && Turn(h).index != i
            && !Finishes(next.vms[stuck]) && next.vms[stuck].config == h.vms[stuck].config
  {
    BestIsFirst(Statuses(h.vms), Priorities(h.vms), |h.vms|);
    assert Eligible(Statuses(h.vms), Priorities(h.vms), stuck);
    TurnTouchesOne(oracle, h, i);
    TurnTouchesOne(oracle, h, stuck);
    StuckDispatch(h.vms[stuck]);
    DispatchKeepsSolo(h.vms[stuck]);
    PolicyKindKept(h);
  }

  /** Under the priority policy a live VM that never gets done, and can be picked, keeps every VM after
      it in the order from ever being picked again. Its state never changes, and if its name is its own
      its recorded dispatches never grow. */
  lemma {:induction false} PriorityStarves(oracle: Oracle, h: Hypervisor, stuck: nat, i: nat, k: nat)
    requires NonePending(h.vms) && h.policy.Priority?
    requires stuck < |h.vms| && !Finishes(h.vms[stuck]) && h.vms[stuck].config.priority > PRIORITY_FLOOR
    requires i < |h.vms| && Before(Priorities(h.vms), stuck, i)
    ensures Turn(Iterations(oracle, h, k)).index != i
    ensures Iterations(oracle, h, k).vms[i] == h.vms[i]
    ensures NameUnique(h.vms, i) ==>
              var name := h.vms[i].config.name;
              Tally(Iterations(oracle, h, k).stats.dispatchCountByVm, name) == Tally(h.stats.dispatchCountByVm, name)
    decreases k
  {
    hide Iterate, Finishes, Before, Turn, NameUnique;
    StarvedTurn(oracle, h, stuck, i);
    if k == 0 {
      assert Iterations(oracle, h, 0) == h;
    } else {
      var next := Iterate(oracle, h);
      BeforeKept(h.vms, next.vms, stuck, i);
      if NameUnique(h.vms, i) {
        TurnTallied(oracle, h, i);
      }
      PriorityStarves(oracle, next, stuck, i, k - 1);
    }
  }

  lemma BeforeKept(vms: seq<Vm>, next: seq<Vm>, stuck: nat, i: nat)
    requires |next| == |vms| && stuck < |vms| && i < |vms|
    requires next[i] == vms[i] && next[stuck].config == vms[stuck].config
    ensures Before(Priorities(next), stuck, i) == Before(Priorities(vms), stuck, i)
  {
  }
}
