/** The three scheduling policies: their picks as functions, and the classes that make them in place. */
module Schedulers {
  import opened Words
  import opened Machine

  /** The state a policy keeps between two picks. */
  datatype Policy =
    | RoundRobin(cursor: nat)
    | Priority
    | Mlfq(initialized: bool, high: seq<nat>, mid: seq<nat>, low: seq<nat>)

  datatype Choice = Choice(index: nat, next: Policy)

  predicate Live(statuses: seq<VmStatus>, i: nat) {
    i < |statuses| && !Terminal(statuses[i])
  }

  // ---------------------------------------------------------------------------------------
  // Round robin
  // ---------------------------------------------------------------------------------------

  /** The first live index at or after the cursor, cyclically, skipping the first `tried`. */
  function Scan(statuses: seq<VmStatus>, cursor: nat, tried: nat): Option<nat>
    decreases |statuses| - tried
  {
    if tried >= |statuses| then None
    else
      var candidate := (cursor + tried) % |statuses|;
      if Live(statuses, candidate) then Some(candidate) else Scan(statuses, cursor, tried + 1)
  }

  function RoundRobinPick(cursor: nat, statuses: seq<VmStatus>): Choice {
    match Scan(statuses, cursor, 0)
    case Some(candidate) => Choice(candidate, RoundRobin((candidate + 1) % |statuses|))
    case None => Choice(0, RoundRobin(cursor))
  }

  class RoundRobinScheduler {
    var cursor: nat

    constructor ()
      ensures cursor == 0
    {
      cursor := 0;
    }

    method PickNext(statuses: seq<VmStatus>, priorities: seq<int32>) returns (index: nat)
      modifies this
      ensures Choice(index, RoundRobin(cursor)) == RoundRobinPick(old(cursor), statuses)
    {
      if |statuses| == 0 {
        return 0;
      }
      var i := 0;
      while i < |statuses|
        invariant i <= |statuses| && cursor == old(cursor)
        invariant Scan(statuses, cursor, 0) == Scan(statuses, cursor, i)
      {
        var candidate := (cursor + i) % |statuses|;
        if statuses[candidate] == Ready || statuses[candidate] == Running || statuses[candidate] == Blocked {
          cursor := (candidate + 1) % |statuses|;
          return candidate;
        }
        i := i + 1;
      }
      return 0;
    }
  }

  // ---------------------------------------------------------------------------------------
  // Priority
  // ---------------------------------------------------------------------------------------

  const PRIORITY_FLOOR: int := -1000000

  datatype Best = Best(index: nat, priority: int)

  /** The maximum scan over the first `upto` VMs. */
  function BestOf(statuses: seq<VmStatus>, priorities: seq<int32>, upto: nat): Best
    requires upto <= |statuses|
  {
    if upto == 0 then Best(0, PRIORITY_FLOOR)
    else
      var best := BestOf(statuses, priorities, upto - 1);
      var i := upto - 1;
      if Live(statuses, i) && i < |priorities| && priorities[i] > best.priority
      then Best(i, priorities[i])
      else best
  }

  class PriorityScheduler {
    constructor () {}

    method PickNext(statuses: seq<VmStatus>, priorities: seq<int32>) returns (index: nat)
      ensures index == BestOf(statuses, priorities, |statuses|).index
    {
      var bestPriority: int := PRIORITY_FLOOR;
      index := 0;
      for i := 0 to |statuses|
        invariant Best(index, bestPriority) == BestOf(statuses, priorities, i)
      {
        if statuses[i] == Halted || statuses[i] == Faulted {
          continue;
        }
        if i < |priorities| && priorities[i] > bestPriority {
          bestPriority := priorities[i];
          index := i;
        }
      }
    }
  }

  /** A VM the priority scan can choose on its merits. */
  predicate Eligible(statuses: seq<VmStatus>, priorities: seq<int32>, i: nat) {
    Live(statuses, i) && i < |priorities| && priorities[i] > PRIORITY_FLOOR
  }

  /** i comes before j in the order priority descending, index ascending. */
  predicate Before(priorities: seq<int32>, i: nat, j: nat)
    requires i < |priorities| && j < |priorities|
  {
    priorities[i] > priorities[j] || (priorities[i] == priorities[j] && i < j)
  }

  /** The scan returns the first eligible VM of the order, or index 0 if there is none. */
  lemma {:induction false} BestIsFirst(statuses: seq<VmStatus>, priorities: seq<int32>, upto: nat)
    requires upto <= |statuses|
    ensures var best := BestOf(statuses, priorities, upto);
            && (best == Best(0, PRIORITY_FLOOR)
                || (best.index < upto && Eligible(statuses, priorities, best.index)
                    && best.priority == priorities[best.index]))
            && best.priority >= PRIORITY_FLOOR
            && (best.priority == PRIORITY_FLOOR ==> best.index == 0)
            && forall j | 0 <= j < upto && Eligible(statuses, priorities, j) ::
                 && best.priority > PRIORITY_FLOOR
                 && (j == best.index || Before(priorities, best.index, j))
  {
    if upto > 0 {
      BestIsFirst(statuses, priorities, upto - 1);
    }
  }

  /** The floor of the scan: the only live VM is picked if and only if its priority is above -1000000, or
      it is the VM the scan falls back on. */
  lemma LoneVmIff(statuses: seq<VmStatus>, priorities: seq<int32>, i: nat)
    requires Live(statuses, i) && i < |priorities|
    requires forall j: nat | j != i :: !Live(statuses, j)
    ensures BestOf(statuses, priorities, |statuses|).index == i <==> i == 0 || priorities[i] >= -999999
  {
    BestIsFirst(statuses, priorities, |statuses|);
    assert priorities[i] >= -999999 ==> Eligible(statuses, priorities, i);
  }

  // ---------------------------------------------------------------------------------------
  // Multi-level feedback queues
  // ---------------------------------------------------------------------------------------

  /** The queue without the dead VMs at its front. */
  function DropDead(q: seq<nat>, statuses: seq<VmStatus>): seq<nat> {
    if q == [] || Live(statuses, q[0]) then q else DropDead(q[1..], statuses)
  }

  function FullQueue(n: nat): seq<nat> {
    seq(n, i => i)
  }

  /** The queues a pick works on: the first pick puts every VM in the high queue. */
  function Started(p: Policy, n: nat): Policy
    requires p.Mlfq?
  {
    if p.initialized then p else Mlfq(true, FullQueue(n), [], [])
  }

  /** The queues once the dead VMs in front of the first live one are gone. */
  function Drained(p: Policy, statuses: seq<VmStatus>): (d: Policy)
    requires p.Mlfq?
    ensures d.Mlfq?
  {
    var high := DropDead(p.high, statuses);
    if high != [] then p.(high := high)
    else
      var mid := DropDead(p.mid, statuses);
      if mid != [] then p.(high := [], mid := mid)
      else p.(high := [], mid := [], low := DropDead(p.low, statuses))
  }

  /** Takes the head of the first non-empty queue and appends it to the next one. */
  function Rotate(d: Policy, n: nat): Choice
    requires d.Mlfq?
  {
    if d.high != [] then Choice(d.high[0], d.(high := d.high[1..], mid := d.mid + [d.high[0]]))
    else if d.mid != [] then Choice(d.mid[0], d.(mid := d.mid[1..], low := d.low + [d.mid[0]]))
    else if d.low != [] then Choice(d.low[0], d.(high := [d.low[0]], low := d.low[1..]))
    else Choice(0, Mlfq(true, FullQueue(n), [], []))
  }

  function MlfqPick(p: Policy, statuses: seq<VmStatus>): Choice
    requires p.Mlfq?
  {
    Rotate(Drained(Started(p, |statuses|), statuses), |statuses|)
  }

  class MlfqScheduler {
    var initialized: bool
    var high: seq<nat>
    var mid: seq<nat>
    var low: seq<nat>

    ghost function State(): Policy
      reads this
    {
      Mlfq(initialized, high, mid, low)
    }

    constructor ()
      ensures State() == Mlfq(false, [], [], [])
    {
      initialized := false;
      high, mid, low := [], [], [];
    }

    method RebuildQueues(vmCount: nat)
      modifies this
      ensures State() == Mlfq(true, FullQueue(vmCount), [], [])
    {
      high := [];
      mid := [];
      low := [];
      for i := 0 to vmCount
        invariant high == FullQueue(i) && mid == [] && low == []
      {
        high := high + [i];
      }
      initialized := true;
    }

    /** Pops dead VMs off the queue, and the first live one if there is one. */
    static method PickFromQueue(queue: seq<nat>, statuses: seq<VmStatus>) returns (index: nat, rest: seq<nat>)
      ensures var q := DropDead(queue, statuses);
              if q == [] then index >= |statuses| && rest == []
              else index == q[0] && index < |statuses| && rest == q[1..]
    {
      rest := queue;
      while rest != []
        invariant DropDead(queue, statuses) == DropDead(rest, statuses)
        decreases |rest|
      {
        var candidate := rest[0];
        rest := rest[1..];
        if candidate < |statuses| && statuses[candidate] != Halted && statuses[candidate] != Faulted {
          return candidate, rest;
        }
      }
      index := if |statuses| == 0 then 0 else |statuses|;
    }

    method PickNext(statuses: seq<VmStatus>, priorities: seq<int32>) returns (index: nat)
      modifies this
      ensures Choice(index, State()) == MlfqPick(old(State()), statuses)
    {
      if !initialized {
        RebuildQueues(|statuses|);
      }
      index, high := PickFromQueue(high, statuses);
      if index < |statuses| {
        mid := mid + [index];
        return;
      }
      index, mid := PickFromQueue(mid, statuses);
      if index < |statuses| {
        low := low + [index];
        return;
      }
      index, low := PickFromQueue(low, statuses);
      if index < |statuses| {
        assert high + [index] == [index];
        high := high + [index];
        return;
      }
      RebuildQueues(|statuses|);
      return 0;
    }
  }

  // ---------------------------------------------------------------------------------------
  // All policies
  // ---------------------------------------------------------------------------------------

  function Pick(p: Policy, statuses: seq<VmStatus>, priorities: seq<int32>): Choice {
    match p
    case RoundRobin(cursor) => RoundRobinPick(cursor, statuses)
    case Priority => Choice(BestOf(statuses, priorities, |statuses|).index, Priority)
    case Mlfq(_, _, _, _) => MlfqPick(p, statuses)
  }

  /** A scheduler object of any policy. */
  datatype IScheduler =
    | OfRoundRobin(roundRobin: RoundRobinScheduler)
    | OfPriority(priority: PriorityScheduler)
    | OfMlfq(mlfq: MlfqScheduler)
  {
    ghost function Repr(): set<object> {
      match this
      case OfRoundRobin(s) => {s}
      case OfPriority(s) => {s}
      case OfMlfq(s) => {s}
    }

    ghost function State(): Policy
      reads Repr()
    {
      match this
      case OfRoundRobin(s) => RoundRobin(s.cursor)
      case OfPriority(_) => Priority
      case OfMlfq(s) => s.State()
    }

    method PickNext(statuses: seq<VmStatus>, priorities: seq<int32>) returns (index: nat)
      modifies Repr()
      ensures Choice(index, State()) == Pick(old(State()), statuses, priorities)
    {
      match this {
        case OfRoundRobin(s) => index := s.PickNext(statuses, priorities);
        case OfPriority(s) => index := s.PickNext(statuses, priorities);
        case OfMlfq(s) => index := s.PickNext(statuses, priorities);
      }
    }
  }
}
