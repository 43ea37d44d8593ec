/** The scheduler's view of a hypervisor run: scheduler fairness carries over to dispatches. */
module Histories {
  import opened Words
  import opened Machine
  import opened Schedulers
  import opened Fairness
  import opened Migration
  import opened Metrics
  import opened System
  import opened Termination

  /** The status vectors at the first k turns. */
  function History(oracle: Oracle, h: Hypervisor, k: nat): (history: seq<seq<VmStatus>>)
    ensures |history| == k
    decreases k
  {
    if k == 0 then [] else [Statuses(h.vms)] + History(oracle, Iterate(oracle, h), k - 1)
  }

  /** What the scheduler returned at the first k turns. */
  function Picked(oracle: Oracle, h: Hypervisor, k: nat): (picks: seq<nat>)
    ensures |picks| == k
    decreases k
  {
    if k == 0 then [] else [Turn(h).index] + Picked(oracle, Iterate(oracle, h), k - 1)
  }

  lemma {:induction false} HistoryAt(oracle: Oracle, h: Hypervisor, k: nat, t: nat)
    requires t < k
    ensures History(oracle, h, k)[t] == Statuses(Iterations(oracle, h, t).vms)
    ensures Picked(oracle, h, k)[t] == Turn(Iterations(oracle, h, t)).index
    decreases k
  {
    hide Iterate, Turn;
    if t == 0 {
      assert Iterations(oracle, h, 0) == h;
    } else {
      HistoryAt(oracle, Iterate(oracle, h), k - 1, t - 1);
    }
  }

  /** What a turn keeps for the scheduler. */
  lemma TurnKeeps(oracle: Oracle, h: Hypervisor)
    requires NonePending(h.vms)
    ensures var next := Iterate(oracle, h);
            && NonePending(next.vms)
            && Priorities(next.vms) == Priorities(h.vms)
            && Follows(Statuses(h.vms), Statuses(next.vms))
            && (!AllDone(h.vms) ==> next.policy == Turn(h).next)
  {
    StatusesFollow(oracle, h);
    forall i: nat | i < |h.vms|
      ensures Iterate(oracle, h).vms[i].config == h.vms[i].config
      ensures Iterate(oracle, h).vms[i].pending == None
    {
      TurnTouchesOne(oracle, h, i);
      if !h.vms[i].Done() {
        DispatchKeepsSolo(h.vms[i]);
      }
    }
  }

  /** Every prefix of a hypervisor run is a run in the scheduler's sense: done VMs stay done. */
  lemma {:induction false} HistoryIsRun(oracle: Oracle, h: Hypervisor, k: nat)
    requires NonePending(h.vms)
    ensures IsRun(History(oracle, h, k))
    decreases k
  {
    hide Iterate;
    if k > 0 {
      var next := Iterate(oracle, h);
      TurnKeeps(oracle, h);
      HistoryIsRun(oracle, next, k - 1);
      var history, rest := History(oracle, h, k), History(oracle, next, k - 1);
      forall t | 0 < t < |history|
        ensures Follows(history[t - 1], history[t])
      {
        assert history[t] == rest[t - 1];
        if t > 1 {
          assert Follows(rest[t - 2], rest[t - 1]);
        }
      }
    }
  }

  /** As long as some VM is live, the turns of the hypervisor are the picks of its policy. */
  lemma {:induction false} TurnsArePicks(oracle: Oracle, h: Hypervisor, k: nat, i: nat)
    requires NonePending(h.vms) && LiveThroughout(History(oracle, h, k), i)
    ensures Picked(oracle, h, k) == Picks(h.policy, History(oracle, h, k), Priorities(h.vms))
    decreases k
  {
    hide Iterate, Pick;
    if k > 0 {
      var next := Iterate(oracle, h);
      var history := History(oracle, h, k);
      TurnKeeps(oracle, h);
      assert Live(history[0], i);
      assert history[1..] == History(oracle, next, k - 1);
      forall t | 0 <= t < k - 1
        ensures Live(history[1..][t], i)
      {
        assert Live(history[t + 1], i);
      }
      TurnsArePicks(oracle, next, k - 1, i);
    }
  }

  lemma HistoryWidth(oracle: Oracle, h: Hypervisor, k: nat)
    ensures forall t | 0 <= t < k :: |History(oracle, h, k)[t]| == |h.vms|
  {
    forall t: nat | t < k
      ensures |History(oracle, h, k)[t]| == |h.vms|
    {
      HistoryAt(oracle, h, k, t);
    }
  }

  /** The dispatches recorded in k turns for the name of the i-th VM. */
  function Gained(oracle: Oracle, h: Hypervisor, k: nat, i: nat): int
    requires i < |h.vms|
  {
    var name := h.vms[i].config.name;
    Tally(Iterations(oracle, h, k).stats.dispatchCountByVm, name) - Tally(h.stats.dispatchCountByVm, name)
  }

  /** As long as a uniquely named VM is live, each turn that picks it adds one to its recorded
      dispatches, and no other turn does. */
  lemma {:induction false} PicksAreTallied(oracle: Oracle, h: Hypervisor, k: nat, i: nat)
    requires NonePending(h.vms) && i < |h.vms| && NameUnique(h.vms, i)
    requires LiveThroughout(History(oracle, h, k), i)
    ensures Gained(oracle, h, k, i) == Count(Picked(oracle, h, k), i)
    decreases k
  {
    hide Iterate, Turn, NameUnique;
    if k > 0 {
      var next := Iterate(oracle, h);
      var history, picks := History(oracle, h, k), Picked(oracle, h, k);
      TurnKeeps(oracle, h);
      TurnTallied(oracle, h, i);
      assert Live(history[0], i);
      assert history[1..] == History(oracle, next, k - 1) && picks[1..] == Picked(oracle, next, k - 1);
      forall t | 0 <= t < k - 1
        ensures Live(history[1..][t], i)
      {
        assert Live(history[t + 1], i);
      }
      PicksAreTallied(oracle, next, k - 1, i);
    } else {
      assert Iterations(oracle, h, 0) == h;
    }
  }

  /** Round-robin fairness of the hypervisor: after any number of turns, two VMs live so far have been
      given the same number of turns, or the one with the smaller index one more; and if their names are
      their own, so say the recorded dispatches. */
  lemma DispatchesEven(oracle: Oracle, h: Hypervisor, k: nat, i: nat, j: nat)
    requires NonePending(h.vms) && h.policy == RoundRobin(0) && i <= j < |h.vms|
    requires LiveThroughout(History(oracle, h, k), i) && LiveThroughout(History(oracle, h, k), j)
    ensures 0 <= Count(Picked(oracle, h, k), i) - Count(Picked(oracle, h, k), j) <= 1
    ensures NameUnique(h.vms, i) && NameUnique(h.vms, j) ==>
              0 <= Gained(oracle, h, k, i) - Gained(oracle, h, k, j) <= 1
  {
    HistoryWidth(oracle, h, k);
    TurnsArePicks(oracle, h, k, i);
    RoundRobinEven(History(oracle, h, k), Priorities(h.vms), |h.vms|, i, j);
    LeadIsRecorded(oracle, h, k, i, j);
  }

  /** Fairness of the hypervisor under the feedback queues: the same with a lead of at most three. */
  lemma DispatchesNearlyEven(oracle: Oracle, h: Hypervisor, k: nat, i: nat, j: nat)
    requires NonePending(h.vms) && h.policy == Mlfq(false, [], [], []) && i <= j < |h.vms|
    requires LiveThroughout(History(oracle, h, k), i) && LiveThroughout(History(oracle, h, k), j)
    ensures 0 <= Count(Picked(oracle, h, k), i) - Count(Picked(oracle, h, k), j) <= 3
    ensures NameUnique(h.vms, i) && NameUnique(h.vms, j) ==>
              0 <= Gained(oracle, h, k, i) - Gained(oracle, h, k, j) <= 3
  {
    HistoryIsRun(oracle, h, k);
    TurnsArePicks(oracle, h, k, i);
    MlfqEven(History(oracle, h, k), Priorities(h.vms), i, j);
    LeadIsRecorded(oracle, h, k, i, j);
  }

  lemma LeadIsRecorded(oracle: Oracle, h: Hypervisor, k: nat, i: nat, j: nat)
    requires NonePending(h.vms) && i < |h.vms| && j < |h.vms|
    requires LiveThroughout(History(oracle, h, k), i) && LiveThroughout(History(oracle, h, k), j)
    ensures NameUnique(h.vms, i) && NameUnique(h.vms, j) ==>
              Gained(oracle, h, k, i) - Gained(oracle, h, k, j)
              == Count(Picked(oracle, h, k), i) - Count(Picked(oracle, h, k), j)
  {
    hide Gained, NameUnique;
    if NameUnique(h.vms, i) && NameUnique(h.vms, j) {
      PicksAreTallied(oracle, h, k, i);
      PicksAreTallied(oracle, h, k, j);
    }
  }

  /** The run up to turn u, as the scheduler sees it: the turns are its picks. */
  lemma PriorityRun(oracle: Oracle, h: Hypervisor, u: nat)
    requires NonePending(h.vms) && h.policy.Priority?
    requires Eligible(Statuses(Iterations(oracle, h, u).vms), Priorities(h.vms),
                      Turn(Iterations(oracle, h, u)).index)
    ensures IsRun(History(oracle, h, u + 1))
    ensures Picked(oracle, h, u + 1) == Picks(Priority, History(oracle, h, u + 1), Priorities(h.vms))
  {
    hide Iterations, Turn, Iterate, Picks, History, Picked, IsRun;
    var history, i := History(oracle, h, u + 1), Turn(Iterations(oracle, h, u)).index;
    HistoryIsRun(oracle, h, u + 1);
    HistoryAt(oracle, h, u + 1, u);
    forall s: nat | s <= u
      ensures Live(history[s], i)
    {
      LiveEarlier(history, i, s, u);
    }
    TurnsArePicks(oracle, h, u + 1, i);
  }

  /** Priority scheduling runs VMs in order and to completion: of two turns, the later of which picks a
      VM on its merits, the earlier picks the same VM, or one that comes before it and is done by the
      later turn. */
  lemma DispatchesInOrder(oracle: Oracle, h: Hypervisor, t: nat, u: nat)
    requires NonePending(h.vms) && h.policy.Priority? && t <= u
    requires Eligible(Statuses(Iterations(oracle, h, u).vms), Priorities(h.vms),
                      Turn(Iterations(oracle, h, u)).index)
    ensures var early, late := Turn(Iterations(oracle, h, t)).index, Turn(Iterations(oracle, h, u)).index;
            && early < |h.vms|
            && (early == late
                || (Before(Priorities(h.vms), early, late) && Iterations(oracle, h, u).vms[early].Done()))
  {
    hide Iterations, Turn, Iterate, Picks, History, Picked, IsRun;
    PriorityRun(oracle, h, u);
    HistoryAt(oracle, h, u + 1, t);
    HistoryAt(oracle, h, u + 1, u);
    PriorityBlocks(History(oracle, h, u + 1), Priorities(h.vms), t, u);
  }

  /** And the turns of each VM form one contiguous block: between two turns that pick the same VM, the
      later of which picks it on its merits, every turn picks it. */
  lemma DispatchesContiguous(oracle: Oracle, h: Hypervisor, s: nat, t: nat, u: nat)
    requires NonePending(h.vms) && h.policy.Priority? && s <= t <= u
    requires Eligible(Statuses(Iterations(oracle, h, u).vms), Priorities(h.vms),
                      Turn(Iterations(oracle, h, u)).index)
    requires Turn(Iterations(oracle, h, s)).index == Turn(Iterations(oracle, h, u)).index
    ensures Turn(Iterations(oracle, h, t)).index == Turn(Iterations(oracle, h, u)).index
  {
    hide Iterations, Turn, Iterate, Picks, History, Picked, IsRun;
    PriorityRun(oracle, h, u);
    HistoryAt(oracle, h, u + 1, s);
    HistoryAt(oracle, h, u + 1, t);
    HistoryAt(oracle, h, u + 1, u);
    PriorityContiguous(History(oracle, h, u + 1), Priorities(h.vms), s, t, u);
  }
}
